/**
 * The pose snapshot and apply engine (`PoseContainer`).
 *
 * The host skeleton is a value: its partial skeletons (bone names and the connector indices), one
 * model pose per partial, and a log of the host calls made so far (every `SetModelTransform` and
 * every `Propagate`). Forward kinematics belongs to the host: `Propagate` keeps the bone it is
 * given and recomputes every other bone of the same partial with the caller-supplied `fk`.
 *
 * Rotations are symbolic: `Mul` and `Div` build terms and obey only the identity laws, so every
 * statement below is about which bones are written, in what order, and which fields change.
 */
module Posing {
  import opened Common

  // ---------------------------------------------------------------------------------------------
  // Transforms

  /** A position or scale; its components are never inspected. */
  datatype Vec3 = Vec3(x: real, y: real, z: real)

  /** A rotation as a term: a host value, the identity, a product or a quotient. */
  datatype Quat = Quat(tag: int) | Identity | Product(l: Quat, r: Quat) | Quotient(l: Quat, r: Quat)

  /** `a * b`; only the identity laws are interpreted. */
  function Mul(a: Quat, b: Quat): (q: Quat)
    ensures a == Identity ==> q == b
    ensures b == Identity ==> q == a
  {
    if a == Identity then b else if b == Identity then a else Product(a, b)
  }

  /** `a / b`; dividing by the identity is the only interpreted case. */
  function Div(a: Quat, b: Quat): (q: Quat)
    ensures b == Identity ==> q == a
  {
    if b == Identity then a else Quotient(a, b)
  }

  datatype Transform = Transform(position: Vec3, rotation: Quat, scale: Vec3)

  /** The `[Flags] PoseTransforms` mask: Rotation = 1, Position = 2, Scale = 4, PositionRoot = 8. */
  datatype PoseTransforms = PoseTransforms(rotation: bool, position: bool, scale: bool, positionRoot: bool)

  /** The default argument of every `Apply*` method: `PoseTransforms.Rotation`. */
  const RotationOnly := PoseTransforms(true, false, false, false)

  const AllChannels := PoseTransforms(true, true, true, true)

  // ---------------------------------------------------------------------------------------------
  // The host skeleton

  /**
   * One partial skeleton: whether `GetHavokPose(0)` is non-null, the bone names of that pose's
   * skeleton (`None` when the pose or its skeleton is null), `ConnectedBoneIndex` and
   * `ConnectedParentBoneIndex`.
   */
  datatype Partial = Partial(pose: bool, bones: Option<seq<string>>, connectedBone: int, connectedParentBone: int)

  datatype HostEvent =
    | SetModel(partial: nat, bone: nat, t: Transform)
    | Propagated(partial: nat, bone: nat, t: Transform, prev: Transform)

  /**
   * The host skeleton: its partial skeletons, the model transform of each bone keyed by
   * (partial, bone), and the log of host calls.
   */
  datatype Host = Host(partials: seq<Partial>, model: map<(nat, nat), Transform>, log: seq<HostEvent>)

  /** `fk(model, p, b, written, previous, j)`: the host's new model transform for bone `j` of partial `p`. */
  type Fk = (map<(nat, nat), Transform>, nat, nat, Transform, Transform, nat) -> Transform

  /**
   * What the host guarantees: a model transform for every bone of every partial with a skeleton,
   * a skeleton only on a pose, and connector indices that address a bone of the partial and a
   * model transform of partial 0's pose.
   */
  predicate WellFormed(h: Host)
  {
    Shaped(h.partials, h.model.Keys)
  }

  predicate Shaped(parts: seq<Partial>, keys: set<(nat, nat)>)
  {
    && (forall p: nat, b: nat :: p < |parts| && parts[p].bones.Some? && b < |parts[p].bones.value| ==> (p, b) in keys)
    && (forall p :: 0 <= p < |parts| && parts[p].bones.Some? ==> parts[p].pose)
    && (forall p :: 0 < p < |parts| && parts[p].bones.Some? ==>
          0 <= parts[p].connectedBone < |parts[p].bones.value|)
    && (forall p: nat :: 0 < p < |parts| && parts[p].pose ==>
          0 <= parts[p].connectedBone && (p, parts[p].connectedBone as nat) in keys)
    && (forall p: nat :: 0 < p < |parts| && parts[p].pose && parts[0].pose ==>
          0 <= parts[p].connectedParentBone && (0, parts[p].connectedParentBone as nat) in keys)
  }

  /** `h2` is `h1` after some host calls: same skeleton, same bones, a longer log. */
  predicate Compatible(h1: Host, h2: Host)
  {
    && h2.partials == h1.partials
    && h2.model.Keys == h1.model.Keys
    && h1.log <= h2.log
  }

  lemma CompatibleKeepsWellFormed(h1: Host, h2: Host)
    requires WellFormed(h1) && Compatible(h1, h2)
    ensures WellFormed(h2)
  {
  }

  /** Partial `p` has a pose whose skeleton is non-null. */
  predicate HasPose(h: Host, p: int)
  {
    0 <= p < |h.partials| && h.partials[p].bones.Some?
  }

  /** Partial `p` has a pose, with or without a skeleton (the only test `ParentSkeleton` makes). */
  predicate PoseOf(h: Host, p: int)
  {
    0 <= p < |h.partials| && h.partials[p].pose
  }

  function Names(h: Host, p: int): seq<string>
    requires HasPose(h, p)
  {
    h.partials[p].bones.value
  }

  /** `HavokPoseUtil.SetModelTransform`. */
  function SetModelTransform(h: Host, p: nat, b: nat, t: Transform): (r: Host)
    requires (p, b) in h.model
    ensures Compatible(h, r) && r.log == h.log + [SetModel(p, b, t)]
    ensures r.model[(p, b)] == t
  {
    var m := h.model[(p, b) := t];
    assert m.Keys == h.model.Keys;
    h.(model := m, log := h.log + [SetModel(p, b, t)])
  }

  /**
   * `HavokPoseUtil.Propagate`: bone `b` keeps its transform, the other bones of partial `p`
   * follow `fk`, and the other partials are untouched.
   */
  function Propagate(h: Host, fk: Fk, p: nat, b: nat, t: Transform, prev: Transform): (r: Host)
    requires (p, b) in h.model
    ensures Compatible(h, r) && r.log == h.log + [Propagated(p, b, t, prev)]
    ensures r.model[(p, b)] == h.model[(p, b)]
    ensures forall k :: k in h.model && k.0 != p ==> r.model[k] == h.model[k]
  {
    var m := map k | k in h.model :: if k.0 == p && k.1 != b then fk(h.model, p, b, t, prev, k.1) else h.model[k];
    assert m.Keys == h.model.Keys;
    h.(model := m, log := h.log + [Propagated(p, b, t, prev)])
  }

  // ---------------------------------------------------------------------------------------------
  // Store

  /** Bone `i` of partial `p` is captured by `Store`. */
  predicate Eligible(h: Host, p: int, i: int)
  {
    && HasPose(h, p)
    && 0 <= i < |Names(h, p)|
    && i != h.partials[p].connectedBone
    && Names(h, p)[i] != ""
  }

  /** The entries written by the first `n` iterations of the bone loop over partial `p`. */
  function BoneEntries(h: Host, p: int, n: nat): map<string, Transform>
    requires WellFormed(h) && HasPose(h, p) && n <= |Names(h, p)|
  {
    if n == 0 then map[]
    else if Eligible(h, p, n - 1) then BoneEntries(h, p, n - 1)[Names(h, p)[n - 1] := h.model[(p, n - 1)]]
    else BoneEntries(h, p, n - 1)
  }

  /** The dictionary after the partial loop has run for partials `0 .. n - 1`. */
  function SnapshotUpTo(h: Host, n: nat): map<string, Transform>
    requires WellFormed(h) && n <= |h.partials|
  {
    if n == 0 then map[]
    else if HasPose(h, n - 1) then SnapshotUpTo(h, n - 1) + BoneEntries(h, n - 1, |Names(h, n - 1)|)
    else SnapshotUpTo(h, n - 1)
  }

  function Snapshot(h: Host): map<string, Transform>
    requires WellFormed(h)
  {
    SnapshotUpTo(h, |h.partials|)
  }

  /** `(p1, i1)` comes after `(p0, i0)` in the order `Store` visits bones. */
  predicate Later(p0: int, i0: int, p1: int, i1: int)
  {
    p1 > p0 || (p1 == p0 && i1 > i0)
  }

  lemma {:induction false} BoneEntriesKeys(h: Host, p: int, n: nat, k: string)
    requires WellFormed(h) && HasPose(h, p) && n <= |Names(h, p)|
    ensures k in BoneEntries(h, p, n) <==> exists i :: 0 <= i < n && Eligible(h, p, i) && Names(h, p)[i] == k
    ensures k in BoneEntries(h, p, n) ==>
      exists i :: 0 <= i < n && Eligible(h, p, i) && Names(h, p)[i] == k
        && BoneEntries(h, p, n)[k] == h.model[(p, i)]
        && forall j :: i < j < n && Eligible(h, p, j) ==> Names(h, p)[j] != k
  {
    if n > 0 {
      BoneEntriesKeys(h, p, n - 1, k);
      var last := n - 1;
      if Eligible(h, p, last) && Names(h, p)[last] == k {
        assert BoneEntries(h, p, n)[k] == h.model[(p, last)];
      } else {
        assert BoneEntries(h, p, n) == BoneEntries(h, p, last) || k != Names(h, p)[last];
        assert k in BoneEntries(h, p, n) <==> k in BoneEntries(h, p, last);
        if k in BoneEntries(h, p, n) {
          assert BoneEntries(h, p, n)[k] == BoneEntries(h, p, last)[k];
          var i :| 0 <= i < last && Eligible(h, p, i) && Names(h, p)[i] == k
            && BoneEntries(h, p, last)[k] == h.model[(p, i)]
            && forall j :: i < j < last && Eligible(h, p, j) ==> Names(h, p)[j] != k;
          assert forall j :: i < j < n && Eligible(h, p, j) ==> Names(h, p)[j] != k;
        }
      }
    }
  }

  /**
   * A name is in the snapshot exactly when some captured bone carries it, and its transform is
   * that of the last such bone in visiting order.
   */
  lemma {:induction false} SnapshotUpToKeys(h: Host, n: nat, k: string)
    requires WellFormed(h) && n <= |h.partials|
    ensures k in SnapshotUpTo(h, n) <==> exists p, i :: 0 <= p < n && Eligible(h, p, i) && Names(h, p)[i] == k
    ensures k in SnapshotUpTo(h, n) ==>
      exists p, i :: 0 <= p < n && Eligible(h, p, i) && Names(h, p)[i] == k
        && SnapshotUpTo(h, n)[k] == h.model[(p, i)]
        && forall p', i' :: p' < n && Later(p, i, p', i') && Eligible(h, p', i') ==> Names(h, p')[i'] != k
  {
    if n > 0 {
      SnapshotUpToKeys(h, n - 1, k);
      if HasPose(h, n - 1) {
        var last := n - 1;
        BoneEntriesKeys(h, last, |Names(h, last)|, k);
        if k in BoneEntries(h, last, |Names(h, last)|) {
          var i :| 0 <= i < |Names(h, last)| && Eligible(h, last, i) && Names(h, last)[i] == k
            && BoneEntries(h, last, |Names(h, last)|)[k] == h.model[(last, i)]
            && forall j :: i < j < |Names(h, last)| && Eligible(h, last, j) ==> Names(h, last)[j] != k;
          assert SnapshotUpTo(h, n)[k] == h.model[(last, i)];
          assert forall p', i' :: p' < n && Later(last, i, p', i') && Eligible(h, p', i') ==> Names(h, p')[i'] != k;
        } else if k in SnapshotUpTo(h, n - 1) {
          var p, i :| 0 <= p < n - 1 && Eligible(h, p, i) && Names(h, p)[i] == k
            && SnapshotUpTo(h, n - 1)[k] == h.model[(p, i)]
            && forall p', i' :: p' < n - 1 && Later(p, i, p', i') && Eligible(h, p', i') ==> Names(h, p')[i'] != k;
          assert SnapshotUpTo(h, n)[k] == h.model[(p, i)];
          forall p', i' | p' < n && Later(p, i, p', i') && Eligible(h, p', i') ensures Names(h, p')[i'] != k {
            if p' == last {
              assert !(exists j :: 0 <= j < |Names(h, last)| && Eligible(h, last, j) && Names(h, last)[j] == k);
            }
          }
        }
      } else if k in SnapshotUpTo(h, n - 1) {
        var p, i :| 0 <= p < n - 1 && Eligible(h, p, i) && Names(h, p)[i] == k
          && SnapshotUpTo(h, n - 1)[k] == h.model[(p, i)]
          && forall p', i' :: p' < n - 1 && Later(p, i, p', i') && Eligible(h, p', i') ==> Names(h, p')[i'] != k;
        assert SnapshotUpTo(h, n)[k] == h.model[(p, i)];
      }
    }
  }

  /**
   * `Store` records a name iff some bone with that name is neither its partial's connector bone,
   * nor unnamed, nor in a partial without a pose; when several bones share the name, the entry is
   * the transform of the last one visited (the highest partial, then the highest bone index).
   */
  lemma SnapshotContents(h: Host, k: string)
    requires WellFormed(h)
    ensures k in Snapshot(h) <==> exists p, i :: Eligible(h, p, i) && Names(h, p)[i] == k
    ensures forall p, i ::
      (Eligible(h, p, i) && Names(h, p)[i] == k
       && (forall p', i' :: Later(p, i, p', i') && Eligible(h, p', i') ==> Names(h, p')[i'] != k))
      ==> k in Snapshot(h) && Snapshot(h)[k] == h.model[(p, i)]
  {
    SnapshotUpToKeys(h, |h.partials|, k);
    forall p, i | Eligible(h, p, i) && Names(h, p)[i] == k
      && (forall p', i' :: Later(p, i, p', i') && Eligible(h, p', i') ==> Names(h, p')[i'] != k)
      ensures k in Snapshot(h) && Snapshot(h)[k] == h.model[(p, i)]
    {
      assert k in Snapshot(h);
      var p0, i0 :| 0 <= p0 < |h.partials| && Eligible(h, p0, i0) && Names(h, p0)[i0] == k
        && Snapshot(h)[k] == h.model[(p0, i0)]
        && forall p', i' :: p' < |h.partials| && Later(p0, i0, p', i') && Eligible(h, p', i') ==> Names(h, p')[i'] != k;
      if Later(p, i, p0, i0) {
        assert false;
      } else if Later(p0, i0, p, i) {
        assert false;
      }
    }
  }

  // ---------------------------------------------------------------------------------------------
  // Apply: the specification of the host calls

  /** The transform `ApplyToBone` writes: requested channels from the snapshot, the rest kept. */
  function BoneTarget(current: Transform, model: Transform, offset: Quat, tf: PoseTransforms, posRoot: bool): Transform
  {
    Transform(
      if tf.position || posRoot then model.position else current.position,
      if tf.rotation then Mul(offset, model.rotation) else current.rotation,
      if tf.scale then model.scale else current.scale)
  }

  /** The host calls of `ApplyToBone(p, b, offset, tf)`. */
  function BoneEffect(h: Host, fk: Fk, snap: map<string, Transform>, p: nat, b: nat, offset: Quat, tf: PoseTransforms): (r: Host)
    requires WellFormed(h) && HasPose(h, p) && b < |Names(h, p)|
    ensures Compatible(h, r)
  {
    var name := Names(h, p)[b];
    if name == "" || name !in snap then h
    else
      var model := snap[name];
      var initial := h.model[(p, b)];
      var posRoot := p == 0 && b == 1 && tf.positionRoot;
      var prev := if posRoot then initial.(rotation := Mul(offset, model.rotation)) else initial;
      var target := BoneTarget(initial, model, offset, tf, posRoot);
      Propagate(SetModelTransform(h, p, b, target), fk, p, b, target, prev)
  }

  /**
   * `ApplyToBone` for each bone of `bones`, first to last. The callers only pass bones of the
   * partial; an index outside it would be a host error, and is left out as a no-op here.
   */
  function BonesEffect(h: Host, fk: Fk, snap: map<string, Transform>, p: nat, bones: seq<int>, offset: Quat, tf: PoseTransforms): (r: Host)
    requires WellFormed(h) && HasPose(h, p)
    ensures Compatible(h, r)
    decreases |bones|
  {
    if bones == [] then h
    else
      var h1 := BonesEffect(h, fk, snap, p, bones[..|bones| - 1], offset, tf);
      CompatibleKeepsWellFormed(h, h1);
      var b := bones[|bones| - 1];
      if 0 <= b < |Names(h1, p)| then BoneEffect(h1, fk, snap, p, b, offset, tf) else h1
  }

  lemma BonesEffectSnoc(h: Host, fk: Fk, snap: map<string, Transform>, p: nat, bones: seq<int>, b: int, offset: Quat, tf: PoseTransforms)
    requires WellFormed(h) && HasPose(h, p)
    requires 0 <= b < |Names(h, p)|
    ensures WellFormed(BonesEffect(h, fk, snap, p, bones, offset, tf))
    ensures BonesEffect(h, fk, snap, p, bones + [b], offset, tf)
         == BoneEffect(BonesEffect(h, fk, snap, p, bones, offset, tf), fk, snap, p, b, offset, tf)
  {
    assert (bones + [b])[..|bones|] == bones;
    CompatibleKeepsWellFormed(h, BonesEffect(h, fk, snap, p, bones, offset, tf));
  }

  /** One more iteration of the bone loop of `ApplyToPartialBones`. */
  lemma RangeStep(h: Host, fk: Fk, snap: map<string, Transform>, p: nat, bones: seq<int>, i: int, offset: Quat, tf: PoseTransforms)
    requires WellFormed(h) && HasPose(h, p) && 1 <= i < |Names(h, p)|
    ensures var r := BonesEffect(h, fk, snap, p, Intersect(1, i, bones), offset, tf);
      WellFormed(r) && HasPose(r, p) && Names(r, p) == Names(h, p)
    ensures BonesEffect(h, fk, snap, p, Intersect(1, i + 1, bones), offset, tf)
         == if i in bones then BoneEffect(BonesEffect(h, fk, snap, p, Intersect(1, i, bones), offset, tf), fk, snap, p, i, offset, tf)
            else BonesEffect(h, fk, snap, p, Intersect(1, i, bones), offset, tf)
  {
    BonesEffectSnoc(h, fk, snap, p, Intersect(1, i, bones), i, offset, tf);
  }

  /** `range.Intersect(bones)` for `range` = `lo, ..., hi - 1`: ascending, each value once. */
  function Intersect(lo: int, hi: int, bones: seq<int>): seq<int>
    decreases hi - lo
  {
    if hi <= lo then []
    else if hi - 1 in bones then Intersect(lo, hi - 1, bones) + [hi - 1]
    else Intersect(lo, hi - 1, bones)
  }

  /** `Intersect` lists, in ascending order and once each, exactly the requested values in range. */
  lemma {:induction false} IntersectContents(lo: int, hi: int, bones: seq<int>)
    decreases hi - lo
    ensures StrictlyIncreasing(Intersect(lo, hi, bones))
    ensures forall k :: 0 <= k < |Intersect(lo, hi, bones)| ==>
      lo <= Intersect(lo, hi, bones)[k] < hi && Intersect(lo, hi, bones)[k] in bones
    ensures forall b :: lo <= b < hi && b in bones ==> b in Intersect(lo, hi, bones)
  {
    if hi > lo {
      IntersectContents(lo, hi - 1, bones);
    }
  }

  /** The host calls of `ParentSkeleton(p)` and the rotation delta it returns. */
  function ParentEffect(h: Host, fk: Fk, p: nat): (r: (Host, Quat))
    requires WellFormed(h) && 0 < p < |h.partials|
    ensures Compatible(h, r.0)
  {
    if !PoseOf(h, p) || !PoseOf(h, 0) then (h, Identity)
    else
      var cb := h.partials[p].connectedBone;
      var initial := h.model[(p, cb)];
      var target := h.model[(0, h.partials[p].connectedParentBone)];
      var deltaRot := Div(target.rotation, initial.rotation);
      var step1 := Transform(target.position, initial.rotation, initial.scale);
      var h1 := Propagate(SetModelTransform(h, p, cb, step1), fk, p, cb, step1, initial);
      var step2 := Transform(target.position, Mul(deltaRot, initial.rotation), target.scale);
      var h2 := Propagate(SetModelTransform(h1, p, cb, step2), fk, p, cb, step2, step1);
      (h2, deltaRot)
  }

  /**
   * The rotation offset for the bones of partial `p`, read after `ParentSkeleton` returned `delta`:
   * the identity unless the connector bone's name has a snapshot entry.
   */
  function PartialOffset(h: Host, snap: map<string, Transform>, p: nat, delta: Quat): (offset: Quat)
    requires WellFormed(h) && HasPose(h, p) && p > 0
  {
    var rootIx := h.partials[p].connectedBone;
    var parentName := Names(h, p)[rootIx];
    if parentName != "" && parentName in snap
    then Div(Div(h.model[(p, rootIx)].rotation, snap[parentName].rotation), delta)
    else Identity
  }

  /** The host calls of `ApplyToPartialBones(p, bones, tf)` on a non-null skeleton. */
  function PartialEffect(h: Host, fk: Fk, snap: map<string, Transform>, p: nat, bones: seq<int>, tf: PoseTransforms): (r: Host)
    requires WellFormed(h) && p < |h.partials|
    ensures Compatible(h, r)
  {
    if !HasPose(h, p) then h
    else if p == 0 then BonesEffect(h, fk, snap, 0, Intersect(1, |Names(h, 0)|, bones), Identity, tf)
    else
      var (h1, delta) := ParentEffect(h, fk, p);
      CompatibleKeepsWellFormed(h, h1);
      BonesEffect(h1, fk, snap, p, Intersect(1, |Names(h, p)|, bones), PartialOffset(h1, snap, p, delta), tf)
  }

  /** `PartialEffect` for a partial with a pose: the bone loop runs on the host `h1` it is given. */
  lemma PartialEffectSteps(h: Host, fk: Fk, snap: map<string, Transform>, p: nat, bones: seq<int>, tf: PoseTransforms, h1: Host, offset: Quat)
    requires WellFormed(h) && HasPose(h, p)
    requires p == 0 ==> h1 == h && offset == Identity
    requires p > 0 ==> h1 == ParentEffect(h, fk, p).0 && offset == PartialOffset(h1, snap, p, ParentEffect(h, fk, p).1)
    ensures WellFormed(h1) && HasPose(h1, p) && Names(h1, p) == Names(h, p)
    ensures PartialEffect(h, fk, snap, p, bones, tf) == BonesEffect(h1, fk, snap, p, Intersect(1, |Names(h, p)|, bones), offset, tf)
  {
    CompatibleKeepsWellFormed(h, h1);
  }

  /**
   * `Enumerable.Range(1, Length - 1)` (and, for partial 0, `Enumerable.Range(start, Length - start)`)
   * is given a negative count: partial `p` has a skeleton without bones, and `ApplyToPartial(p)` and
   * `ApplyToPartialBones(p, ...)` throw `ArgumentOutOfRangeException` before any host call. A
   * well-formed host can only have this on partial 0, whose connector indices are never read.
   */
  predicate RangeThrows(h: Host, p: int)
  {
    HasPose(h, p) && |Names(h, p)| == 0
  }

  lemma RangeThrowsOnlyRoot(h: Host, p: int)
    requires WellFormed(h) && RangeThrows(h, p)
    ensures p == 0
  {
  }

  /** The host calls of `ApplyToPartial(p, tf)`. */
  function WholePartialEffect(h: Host, fk: Fk, snap: map<string, Transform>, p: nat, tf: PoseTransforms): (r: Host)
    requires WellFormed(h) && p < |h.partials|
    ensures Compatible(h, r)
  {
    if !HasPose(h, p) then h
    else
      var start := if p > 0 then 0 else 1;
      PartialEffect(h, fk, snap, p, Range(start, |Names(h, p)|), tf)
  }

  /** The host calls of `Apply(tf)` after its loop has visited partials `0 .. n - 1`. */
  function ApplyEffect(h: Host, fk: Fk, snap: map<string, Transform>, tf: PoseTransforms, n: nat): (r: Host)
    requires WellFormed(h) && n <= |h.partials|
    ensures Compatible(h, r)
  {
    if n == 0 then h
    else
      var h1 := ApplyEffect(h, fk, snap, tf, n - 1);
      CompatibleKeepsWellFormed(h, h1);
      WholePartialEffect(h1, fk, snap, n - 1, tf)
  }

  /** One requested bone of `ApplyToBones` (`PartialBoneInfo`). */
  datatype PartialBone = PartialBone(partialIndex: int, boneIndex: int)

  /** The `boneMap` of `ApplyToBones`: requested bone indices grouped by partial, in request order. */
  function Group(bones: seq<PartialBone>): map<int, seq<int>>
  {
    if bones == [] then map[]
    else
      var m := Group(bones[..|bones| - 1]);
      var b := bones[|bones| - 1];
      m[b.partialIndex := (if b.partialIndex in m then m[b.partialIndex] else []) + [b.boneIndex]]
  }

  /** The host calls of the second loop of `ApplyToBones` after it has visited partials `0 .. n - 1`. */
  function GroupsEffect(h: Host, fk: Fk, snap: map<string, Transform>, groups: map<int, seq<int>>, tf: PoseTransforms, n: nat): (r: Host)
    requires WellFormed(h) && n <= |h.partials|
    ensures Compatible(h, r)
  {
    if n == 0 then h
    else
      var h1 := GroupsEffect(h, fk, snap, groups, tf, n - 1);
      CompatibleKeepsWellFormed(h, h1);
      if n - 1 in groups then PartialEffect(h1, fk, snap, n - 1, groups[n - 1], tf) else h1
  }

  // ---------------------------------------------------------------------------------------------
  // Apply: what the host calls do

  /** The host calls made between `h` and its successor `r`. */
  function Added(h: Host, r: Host): seq<HostEvent>
    requires h.log <= r.log
  {
    r.log[|h.log|..]
  }

  /** The calls from `h` to `r` are those from `h` to `m` followed by those from `m` to `r`. */
  lemma AddedSplit(h: Host, m: Host, r: Host)
    requires h.log <= m.log && m.log <= r.log
    ensures h.log <= r.log && Added(h, r) == Added(h, m) + Added(m, r)
  {
    var a, b, c := h.log, m.log, r.log;
    assert c[|a|..] == b[|a|..] + c[|b|..];
  }

  /** The bone indices of the `SetModelTransform` calls of a log, in call order. */
  function Writes(evs: seq<HostEvent>): seq<nat>
  {
    if evs == [] then []
    else Writes(evs[..|evs| - 1]) + (if evs[|evs| - 1].SetModel? then [evs[|evs| - 1].bone] else [])
  }

  lemma {:induction false} WritesAppend(a: seq<HostEvent>, b: seq<HostEvent>)
    decreases |b|
    ensures Writes(a + b) == Writes(a) + Writes(b)
  {
    if b == [] {
      assert a + b == a;
    } else {
      assert (a + b)[..|a + b| - 1] == a + b[..|b| - 1];
      assert (a + b)[|a + b| - 1] == b[|b| - 1];
      WritesAppend(a, b[..|b| - 1]);
    }
  }

  /** A `SetModelTransform` call followed by a `Propagate` call writes one bone. */
  lemma WritesPair(e: seq<HostEvent>)
    requires |e| == 2 && e[0].SetModel? && e[1].Propagated?
    ensures Writes(e) == [e[0].bone]
  {
    var a := e[..1];
    assert e[..|e| - 1] == a;
    assert a[..|a| - 1] == [] && a[|a| - 1] == e[0];
    assert Writes(a) == [e[0].bone];
    assert Writes(e) == Writes(a) + [];
  }

  /** Every call of the log is on partial `p`. */
  predicate AllOn(evs: seq<HostEvent>, p: nat)
  {
    forall k :: 0 <= k < |evs| ==> evs[k].partial == p
  }

  /** The partials of the calls never decrease, and all are below `n`. */
  predicate PartialsAscending(evs: seq<HostEvent>, n: nat)
  {
    && (forall k :: 0 <= k < |evs| ==> evs[k].partial < n)
    && (forall i, j :: 0 <= i < j < |evs| ==> evs[i].partial <= evs[j].partial)
  }

  /** `ApplyToBone` writes bone `b` of partial `p`: it has a name with a snapshot entry. */
  predicate Applies(parts: seq<Partial>, snap: map<string, Transform>, p: nat, b: int)
  {
    && p < |parts| && parts[p].bones.Some?
    && 0 <= b < |parts[p].bones.value|
    && parts[p].bones.value[b] != "" && parts[p].bones.value[b] in snap
  }

  function AppliesTo(parts: seq<Partial>, snap: map<string, Transform>, p: nat): int -> bool
  {
    b => Applies(parts, snap, p, b)
  }

  /**
   * `ApplyToBone` leaves the host alone for a bone without a name or without a snapshot entry.
   * Otherwise it makes one `SetModelTransform` and one `Propagate` call on that bone, and the
   * bone ends with the snapshot's position (when `Position` is requested, or for bone 1 of
   * partial 0 under `PositionRoot`), `offset * ` the snapshot's rotation (when `Rotation` is
   * requested) and the snapshot's scale (when `Scale` is requested); every other field keeps its
   * current value.
   */
  lemma BoneEffectWrites(h: Host, fk: Fk, snap: map<string, Transform>, p: nat, b: nat, offset: Quat, tf: PoseTransforms)
    requires WellFormed(h) && HasPose(h, p) && b < |Names(h, p)|
    ensures var r := BoneEffect(h, fk, snap, p, b, offset, tf);
      && (!Applies(h.partials, snap, p, b) ==> r == h)
      && (Applies(h.partials, snap, p, b) ==>
            var model := snap[Names(h, p)[b]];
            var cur := h.model[(p, b)];
            var t := r.model[(p, b)];
            && |Added(h, r)| == 2
            && Added(h, r)[0] == SetModel(p, b, t)
            && Added(h, r)[1].Propagated? && Added(h, r)[1].partial == p
            && Added(h, r)[1].bone == b && Added(h, r)[1].t == t
            && t.position == (if tf.position || (p == 0 && b == 1 && tf.positionRoot) then model.position else cur.position)
            && t.rotation == (if tf.rotation then Mul(offset, model.rotation) else cur.rotation)
            && t.scale == (if tf.scale then model.scale else cur.scale))
  {
    var r := BoneEffect(h, fk, snap, p, b, offset, tf);
    if Applies(h.partials, snap, p, b) {
      assert Added(h, r) == r.log[|h.log|..];
    }
  }

  /**
   * Restoring a snapshot onto an unchanged bone with every channel and no offset puts back
   * exactly the stored transform.
   */
  lemma BoneRoundTrip(h: Host, fk: Fk, p: nat, b: nat)
    requires WellFormed(h) && HasPose(h, p) && b < |Names(h, p)| && Eligible(h, p, b)
    requires forall p', i' :: Later(p, b, p', i') && Eligible(h, p', i') ==> Names(h, p')[i'] != Names(h, p)[b]
    ensures BoneEffect(h, fk, Snapshot(h), p, b, Identity, AllChannels).model[(p, b)] == h.model[(p, b)]
  {
    SnapshotContents(h, Names(h, p)[b]);
    BoneEffectWrites(h, fk, Snapshot(h), p, b, Identity, AllChannels);
  }

  /** The calls of `ApplyToBone` in the terms of `BonesEffectWrites`. */
  lemma BoneEffectLog(h: Host, fk: Fk, snap: map<string, Transform>, p: nat, b: int, offset: Quat, tf: PoseTransforms)
    requires WellFormed(h) && HasPose(h, p)
    ensures var r := if 0 <= b < |Names(h, p)| then BoneEffect(h, fk, snap, p, b, offset, tf) else h;
      && AllOn(Added(h, r), p)
      && Writes(Added(h, r)) == (if Applies(h.partials, snap, p, b) then [b] else [])
  {
    var r := if 0 <= b < |Names(h, p)| then BoneEffect(h, fk, snap, p, b, offset, tf) else h;
    if 0 <= b < |Names(h, p)| {
      BoneEffectWrites(h, fk, snap, p, b, offset, tf);
    }
    if Applies(h.partials, snap, p, b) {
      WritesPair(Added(h, r));
    } else {
      assert Added(h, r) == [];
    }
  }

  lemma AllOnAppend(a: seq<HostEvent>, b: seq<HostEvent>, p: nat)
    requires AllOn(a, p) && AllOn(b, p)
    ensures AllOn(a + b, p)
  {
    assert forall k :: |a| <= k < |a + b| ==> (a + b)[k] == b[k - |a|];
  }

  /**
   * Applying a list of bones: every call is on partial `p`, and the bones written are those of
   * the list that have a name with a snapshot entry, in list order.
   */
  lemma {:induction false} BonesEffectWrites(h: Host, fk: Fk, snap: map<string, Transform>, p: nat, bones: seq<int>, offset: Quat, tf: PoseTransforms)
    requires WellFormed(h) && HasPose(h, p)
    decreases |bones|
    ensures var r := BonesEffect(h, fk, snap, p, bones, offset, tf);
      && AllOn(Added(h, r), p)
      && Writes(Added(h, r)) == Filter(bones, AppliesTo(h.partials, snap, p))
  {
    var r := BonesEffect(h, fk, snap, p, bones, offset, tf);
    if bones == [] {
      assert Added(h, r) == [];
    } else {
      var init := bones[..|bones| - 1];
      var b := bones[|bones| - 1];
      assert bones == init + [b];
      BonesEffectWrites(h, fk, snap, p, init, offset, tf);
      var h1 := BonesEffect(h, fk, snap, p, init, offset, tf);
      CompatibleKeepsWellFormed(h, h1);
      BoneEffectLog(h1, fk, snap, p, b, offset, tf);
      FilterSnoc(init, b, AppliesTo(h.partials, snap, p));
      AddedSplit(h, h1, r);
      WritesAppend(Added(h, h1), Added(h1, r));
      AllOnAppend(Added(h, h1), Added(h1, r), p);
    }
  }

  /**
   * `ParentSkeleton` is a no-op returning the identity unless both partial `p` and partial 0
   * have a pose. Then it makes exactly two `SetModelTransform`/`Propagate` pairs, both on the
   * connector bone of partial `p`: the first moves it to the position of the joint it connects to
   * in partial 0, the second also gives it that joint's scale and turns it by the returned delta
   * (joint rotation / the connector's original rotation).
   */
  lemma ParentEffectWrites(h: Host, fk: Fk, p: nat)
    requires WellFormed(h) && 0 < p < |h.partials|
    ensures var (r, delta) := ParentEffect(h, fk, p);
      && (!PoseOf(h, p) || !PoseOf(h, 0) ==> r == h && delta == Identity)
      && (PoseOf(h, p) && PoseOf(h, 0) ==>
            var cb := h.partials[p].connectedBone;
            var initial := h.model[(p, cb)];
            var joint := h.model[(0, h.partials[p].connectedParentBone)];
            var step1 := Transform(joint.position, initial.rotation, initial.scale);
            var step2 := Transform(joint.position, Mul(delta, initial.rotation), joint.scale);
            && delta == Div(joint.rotation, initial.rotation)
            && Added(h, r) == [SetModel(p, cb, step1), Propagated(p, cb, step1, initial),
                               SetModel(p, cb, step2), Propagated(p, cb, step2, step1)])
  {
    var (r, delta) := ParentEffect(h, fk, p);
    if PoseOf(h, p) && PoseOf(h, 0) {
      var cb := h.partials[p].connectedBone;
      var initial := h.model[(p, cb)];
      var joint := h.model[(0, h.partials[p].connectedParentBone)];
      var step1 := Transform(joint.position, initial.rotation, initial.scale);
      var step2 := Transform(joint.position, Mul(delta, initial.rotation), joint.scale);
      var h1 := Propagate(SetModelTransform(h, p, cb, step1), fk, p, cb, step1, initial);
      assert h1.log == h.log + [SetModel(p, cb, step1), Propagated(p, cb, step1, initial)];
      assert r == Propagate(SetModelTransform(h1, p, cb, step2), fk, p, cb, step2, step1);
      assert r.log == h1.log + [SetModel(p, cb, step2), Propagated(p, cb, step2, step1)];
    }
  }

  /** Two write/propagate pairs on bone `b` of partial `p` are all on `p` and write `b` twice. */
  lemma TwoPairs(e: seq<HostEvent>, p: nat, b: nat, s1: Transform, i1: Transform, s2: Transform, i2: Transform)
    requires e == [SetModel(p, b, s1), Propagated(p, b, s1, i1), SetModel(p, b, s2), Propagated(p, b, s2, i2)]
    ensures AllOn(e, p) && Writes(e) == [b, b]
  {
    var x, y := e[..2], e[2..];
    assert e == x + y;
    WritesPair(x);
    WritesPair(y);
    WritesAppend(x, y);
  }

  /** `ParentSkeleton` writes the connector bone of partial `p` twice and nothing else. */
  lemma ParentEffectTouches(h: Host, fk: Fk, p: nat)
    requires WellFormed(h) && 0 < p < |h.partials|
    ensures var r := ParentEffect(h, fk, p).0;
      && AllOn(Added(h, r), p)
      && Writes(Added(h, r)) == if PoseOf(h, p) && PoseOf(h, 0) then [h.partials[p].connectedBone, h.partials[p].connectedBone] else []
  {
    ParentEffectWrites(h, fk, p);
    var (r, delta) := ParentEffect(h, fk, p);
    if PoseOf(h, p) && PoseOf(h, 0) {
      var cb := h.partials[p].connectedBone;
      var initial := h.model[(p, cb)];
      var joint := h.model[(0, h.partials[p].connectedParentBone)];
      var step1 := Transform(joint.position, initial.rotation, initial.scale);
      var step2 := Transform(joint.position, Mul(delta, initial.rotation), joint.scale);
      TwoPairs(Added(h, r), p, cb, step1, initial, step2, step1);
    } else {
      assert Added(h, r) == [];
    }
  }

  /**
   * After `ParentSkeleton`, the connector bone holds the second write, and no transform of
   * partial 0 has changed.
   */
  lemma ParentEffectModel(h: Host, fk: Fk, p: nat)
    requires WellFormed(h) && 0 < p < |h.partials| && PoseOf(h, p) && PoseOf(h, 0)
    ensures var (r, delta) := ParentEffect(h, fk, p);
      && r.model[(p, h.partials[p].connectedBone)] == Added(h, r)[2].t
      && forall j :: (0, j) in h.model ==> r.model[(0, j)] == h.model[(0, j)]
  {
    ParentEffectWrites(h, fk, p);
  }

  /** Concatenating two logs, the second all on partial `q` above the first's. */
  lemma AscendingAppend(a: seq<HostEvent>, b: seq<HostEvent>, q: nat)
    requires PartialsAscending(a, q) && AllOn(b, q)
    ensures PartialsAscending(a + b, q + 1)
  {
    assert forall k :: |a| <= k < |a + b| ==> (a + b)[k] == b[k - |a|];
  }

  /** Every call of the log is on a partial that is a key of `groups`. */
  predicate AllIn(evs: seq<HostEvent>, groups: map<int, seq<int>>)
  {
    forall k :: 0 <= k < |evs| ==> evs[k].partial as int in groups
  }

  lemma AllInAppend(a: seq<HostEvent>, b: seq<HostEvent>, groups: map<int, seq<int>>, q: nat)
    requires AllIn(a, groups) && (b == [] || (AllOn(b, q) && q in groups))
    ensures AllIn(a + b, groups)
  {
    assert forall k :: |a| <= k < |a + b| ==> (a + b)[k] == b[k - |a|];
  }

  /**
   * `ApplyToPartialBones` makes calls on partial `p` only: for a partial after 0 with both poses
   * present, the two connector writes come first; then the requested bones of `1 .. |names| - 1`
   * that have a name with a snapshot entry, ascending.
   */
  lemma PartialEffectWrites(h: Host, fk: Fk, snap: map<string, Transform>, p: nat, bones: seq<int>, tf: PoseTransforms)
    requires WellFormed(h) && p < |h.partials|
    ensures var r := PartialEffect(h, fk, snap, p, bones, tf);
      && AllOn(Added(h, r), p)
      && Writes(Added(h, r)) ==
           (if p > 0 && HasPose(h, p) && PoseOf(h, 0) then [h.partials[p].connectedBone, h.partials[p].connectedBone] else [])
           + (if HasPose(h, p) then Filter(Intersect(1, |Names(h, p)|, bones), AppliesTo(h.partials, snap, p)) else [])
  {
    var r := PartialEffect(h, fk, snap, p, bones, tf);
    if !HasPose(h, p) {
      assert Added(h, r) == [];
    } else if p == 0 {
      BonesEffectWrites(h, fk, snap, 0, Intersect(1, |Names(h, 0)|, bones), Identity, tf);
    } else {
      var (h1, delta) := ParentEffect(h, fk, p);
      CompatibleKeepsWellFormed(h, h1);
      ParentEffectTouches(h, fk, p);
      var offset := PartialOffset(h1, snap, p, delta);
      BonesEffectWrites(h1, fk, snap, p, Intersect(1, |Names(h, p)|, bones), offset, tf);
      AddedSplit(h, h1, r);
      WritesAppend(Added(h, h1), Added(h1, r));
      AllOnAppend(Added(h, h1), Added(h1, r), p);
    }
  }

  lemma PartialEffectOn(h: Host, fk: Fk, snap: map<string, Transform>, p: nat, bones: seq<int>, tf: PoseTransforms)
    requires WellFormed(h) && p < |h.partials|
    ensures AllOn(Added(h, PartialEffect(h, fk, snap, p, bones, tf)), p)
  {
    PartialEffectWrites(h, fk, snap, p, bones, tf);
  }

  /**
   * The bones `ApplyToPartialBones` applies (after any connector writes) lie in `1 .. |names| - 1`,
   * were requested, and come once each in ascending order; so bone 0 is never written for them.
   */
  lemma PartialBonesOrder(h: Host, snap: map<string, Transform>, p: nat, bones: seq<int>)
    requires HasPose(h, p)
    ensures var w := Filter(Intersect(1, |Names(h, p)|, bones), AppliesTo(h.partials, snap, p));
      && StrictlyIncreasing(w)
      && forall k :: 0 <= k < |w| ==> 1 <= w[k] < |Names(h, p)| && w[k] in bones && Applies(h.partials, snap, p, w[k])
  {
    var range := Intersect(1, |Names(h, p)|, bones);
    IntersectContents(1, |Names(h, p)|, bones);
    FilterIncreasing(range, AppliesTo(h.partials, snap, p));
    var w := Filter(range, AppliesTo(h.partials, snap, p));
    forall k | 0 <= k < |w|
      ensures 1 <= w[k] < |Names(h, p)| && w[k] in bones && Applies(h.partials, snap, p, w[k])
    {
      var j :| 0 <= j < |range| && range[j] == w[k];
    }
  }

  /** One iteration of the loop of `Apply`: calls on partial `n` only. */
  lemma ApplyStepOn(h: Host, fk: Fk, snap: map<string, Transform>, tf: PoseTransforms, n: nat)
    requires WellFormed(h) && n < |h.partials|
    ensures var h1 := ApplyEffect(h, fk, snap, tf, n);
      var r := ApplyEffect(h, fk, snap, tf, n + 1);
      h1.log <= r.log && AllOn(Added(h1, r), n)
  {
    var h1 := ApplyEffect(h, fk, snap, tf, n);
    CompatibleKeepsWellFormed(h, h1);
    if HasPose(h1, n) {
      var start := if n > 0 then 0 else 1;
      PartialEffectOn(h1, fk, snap, n, Range(start, |Names(h1, n)|), tf);
    } else {
      assert Added(h1, ApplyEffect(h, fk, snap, tf, n + 1)) == [];
    }
  }

  /** The hosts the loop of `Apply` passes through, after `0 .. n` iterations. */
  function ApplyChain(h: Host, fk: Fk, snap: map<string, Transform>, tf: PoseTransforms, n: nat): (hs: seq<Host>)
    requires WellFormed(h) && n <= |h.partials|
    ensures |hs| == n + 1 && StepsOn(hs)
    ensures forall i :: 0 <= i <= n ==> hs[i] == ApplyEffect(h, fk, snap, tf, i)
  {
    var hs := seq(n + 1, i requires 0 <= i <= n => ApplyEffect(h, fk, snap, tf, i));
    assert StepsOn(hs) by {
      forall i | 0 <= i < |hs| - 1 ensures hs[i].log <= hs[i + 1].log && AllOn(Added(hs[i], hs[i + 1]), i) {
        ApplyStepOn(h, fk, snap, tf, i);
      }
    }
    hs
  }

  /** `Apply` works through the partials in ascending order, each index below the count. */
  lemma ApplyEffectOrder(h: Host, fk: Fk, snap: map<string, Transform>, tf: PoseTransforms, n: nat)
    requires WellFormed(h) && n <= |h.partials|
    ensures PartialsAscending(Added(h, ApplyEffect(h, fk, snap, tf, n)), n)
  {
    ChainAscending(ApplyChain(h, fk, snap, tf, n));
  }

  /** Each step `i` of a chain of hosts only adds calls on partial `i`. */
  predicate StepsOn(hs: seq<Host>)
  {
    forall i :: 0 <= i < |hs| - 1 ==> hs[i].log <= hs[i + 1].log && AllOn(Added(hs[i], hs[i + 1]), i)
  }

  /** Each step `i` of a chain of hosts that adds a call is on a requested partial. */
  predicate StepsRequested(hs: seq<Host>, groups: map<int, seq<int>>)
  {
    forall i :: 0 <= i < |hs| - 1 && hs[i].log <= hs[i + 1].log && i !in groups ==> Added(hs[i], hs[i + 1]) == []
  }

  /** Along such a chain the calls are in ascending partial order. */
  lemma {:induction false} ChainAscending(hs: seq<Host>)
    requires |hs| >= 1 && StepsOn(hs)
    ensures hs[0].log <= hs[|hs| - 1].log
    ensures PartialsAscending(Added(hs[0], hs[|hs| - 1]), |hs| - 1)
  {
    var n := |hs| - 1;
    if n == 0 {
      assert Added(hs[0], hs[0]) == [];
    } else {
      var init := hs[..n];
      assert StepsOn(init) by {
        forall i | 0 <= i < |init| - 1 ensures init[i].log <= init[i + 1].log && AllOn(Added(init[i], init[i + 1]), i) {
          assert init[i] == hs[i] && init[i + 1] == hs[i + 1];
        }
      }
      ChainAscending(init);
      assert init[0] == hs[0] && init[n - 1] == hs[n - 1];
      AddedSplit(hs[0], hs[n - 1], hs[n]);
      AscendingAppend(Added(hs[0], hs[n - 1]), Added(hs[n - 1], hs[n]), n - 1);
    }
  }

  /** Along such a chain every call is on a requested partial. */
  lemma {:induction false} ChainRequested(hs: seq<Host>, groups: map<int, seq<int>>)
    requires |hs| >= 1 && StepsOn(hs) && StepsRequested(hs, groups)
    ensures hs[0].log <= hs[|hs| - 1].log
    ensures AllIn(Added(hs[0], hs[|hs| - 1]), groups)
  {
    var n := |hs| - 1;
    if n == 0 {
      assert Added(hs[0], hs[0]) == [];
    } else {
      var init := hs[..n];
      assert StepsOn(init) && StepsRequested(init, groups) by {
        forall i | 0 <= i < |init| - 1
          ensures init[i].log <= init[i + 1].log && AllOn(Added(init[i], init[i + 1]), i)
          ensures i !in groups ==> Added(init[i], init[i + 1]) == []
        {
          assert init[i] == hs[i] && init[i + 1] == hs[i + 1];
        }
      }
      ChainRequested(init, groups);
      assert init[0] == hs[0] && init[n - 1] == hs[n - 1];
      AddedSplit(hs[0], hs[n - 1], hs[n]);
      AllInAppend(Added(hs[0], hs[n - 1]), Added(hs[n - 1], hs[n]), groups, n - 1);
    }
  }

  /** One iteration of the second loop of `ApplyToBones`: calls on partial `n` only, and none unless requested. */
  lemma GroupsStepOn(h: Host, fk: Fk, snap: map<string, Transform>, groups: map<int, seq<int>>, tf: PoseTransforms, n: nat)
    requires WellFormed(h) && n < |h.partials|
    ensures var h1 := GroupsEffect(h, fk, snap, groups, tf, n);
      var r := GroupsEffect(h, fk, snap, groups, tf, n + 1);
      && h1.log <= r.log
      && AllOn(Added(h1, r), n)
      && (n !in groups ==> Added(h1, r) == [])
  {
    var h1 := GroupsEffect(h, fk, snap, groups, tf, n);
    CompatibleKeepsWellFormed(h, h1);
    if n in groups {
      PartialEffectOn(h1, fk, snap, n, groups[n], tf);
    } else {
      assert Added(h1, GroupsEffect(h, fk, snap, groups, tf, n + 1)) == [];
    }
  }

  /** The hosts the second loop of `ApplyToBones` passes through, after `0 .. n` iterations. */
  function GroupsChain(h: Host, fk: Fk, snap: map<string, Transform>, groups: map<int, seq<int>>, tf: PoseTransforms, n: nat): (hs: seq<Host>)
    requires WellFormed(h) && n <= |h.partials|
    ensures |hs| == n + 1 && StepsOn(hs) && StepsRequested(hs, groups)
    ensures forall i :: 0 <= i <= n ==> hs[i] == GroupsEffect(h, fk, snap, groups, tf, i)
  {
    var hs := seq(n + 1, i requires 0 <= i <= n => GroupsEffect(h, fk, snap, groups, tf, i));
    assert StepsOn(hs) && StepsRequested(hs, groups) by {
      forall i | 0 <= i < |hs| - 1
        ensures hs[i].log <= hs[i + 1].log && AllOn(Added(hs[i], hs[i + 1]), i)
        ensures i !in groups ==> Added(hs[i], hs[i + 1]) == []
      {
        GroupsStepOn(h, fk, snap, groups, tf, i);
      }
    }
    hs
  }

  /**
   * The second loop of `ApplyToBones` visits the partials in ascending order; a requested partial
   * index at or above the count is never visited.
   */
  lemma GroupsEffectOrder(h: Host, fk: Fk, snap: map<string, Transform>, groups: map<int, seq<int>>, tf: PoseTransforms, n: nat)
    requires WellFormed(h) && n <= |h.partials|
    ensures PartialsAscending(Added(h, GroupsEffect(h, fk, snap, groups, tf, n)), n)
  {
    ChainAscending(GroupsChain(h, fk, snap, groups, tf, n));
  }

  /** The second loop of `ApplyToBones` writes only partials that some request names. */
  lemma GroupsEffectRequested(h: Host, fk: Fk, snap: map<string, Transform>, groups: map<int, seq<int>>, tf: PoseTransforms, n: nat)
    requires WellFormed(h) && n <= |h.partials|
    ensures AllIn(Added(h, GroupsEffect(h, fk, snap, groups, tf, n)), groups)
  {
    ChainRequested(GroupsChain(h, fk, snap, groups, tf, n), groups);
  }

  /** The bone indices requested for partial `q`, in request order. */
  function RequestedFor(bones: seq<PartialBone>, q: int): seq<int>
  {
    if bones == [] then []
    else (if bones[0].partialIndex == q then [bones[0].boneIndex] else []) + RequestedFor(bones[1..], q)
  }

  lemma {:induction false} RequestedForSnoc(bones: seq<PartialBone>, x: PartialBone, q: int)
    ensures RequestedFor(bones + [x], q) == RequestedFor(bones, q) + (if x.partialIndex == q then [x.boneIndex] else [])
  {
    if bones != [] {
      assert (bones + [x])[1..] == bones[1..] + [x];
      RequestedForSnoc(bones[1..], x, q);
    }
  }

  /**
   * `boneMap` has a key for exactly the partials some request names, and maps each to the bone
   * indices requested for it, in request order (duplicates kept).
   */
  lemma {:induction false} GroupContents(bones: seq<PartialBone>, q: int)
    ensures q in Group(bones) <==> exists k :: 0 <= k < |bones| && bones[k].partialIndex == q
    ensures q in Group(bones) ==> Group(bones)[q] == RequestedFor(bones, q)
    ensures q !in Group(bones) ==> RequestedFor(bones, q) == []
  {
    if bones != [] {
      var init := bones[..|bones| - 1];
      var x := bones[|bones| - 1];
      assert bones == init + [x];
      GroupContents(init, q);
      RequestedForSnoc(init, x, q);
      if exists k :: 0 <= k < |init| && init[k].partialIndex == q {
        var k :| 0 <= k < |init| && init[k].partialIndex == q;
        assert bones[k].partialIndex == q;
      }
      if exists k :: 0 <= k < |bones| && bones[k].partialIndex == q {
        var k :| 0 <= k < |bones| && bones[k].partialIndex == q;
        if k < |init| { assert init[k].partialIndex == q; }
      }
    }
  }

  // ---------------------------------------------------------------------------------------------
  // The container

  class PoseContainer {
    /** The `Dictionary<string, Transform>` the container is. */
    var entries: map<string, Transform>

    constructor ()
      ensures entries == map[]
    {
      entries := map[];
    }

    /** A null skeleton leaves the dictionary alone; otherwise it is replaced by a snapshot. */
    method Store(skeleton: Option<Host>)
      requires skeleton.Some? ==> WellFormed(skeleton.value)
      modifies this
      ensures skeleton.None? ==> entries == old(entries)
      ensures skeleton.Some? ==> entries == Snapshot(skeleton.value)
    {
      if skeleton.None? {
        return;
      }
      var h := skeleton.value;
      entries := map[];
      var p := 0;
      while p < |h.partials|
        invariant 0 <= p <= |h.partials|
        invariant entries == SnapshotUpTo(h, p)
      {
        if h.partials[p].bones.Some? {
          var names := h.partials[p].bones.value;
          var i := 0;
          while i < |names|
            invariant 0 <= i <= |names|
            invariant entries == SnapshotUpTo(h, p) + BoneEntries(h, p, i)
          {
            if i != h.partials[p].connectedBone && names[i] != "" {
              entries := entries[names[i] := h.model[(p, i)]];
            }
            i := i + 1;
          }
        }
        p := p + 1;
      }
    }

    /**
     * `ok` is false when the call throws. The loop starts at partial 0, so a throw there comes
     * before any host call and stops the loop.
     */
    method Apply(skeleton: Option<Host>, fk: Fk, tf: PoseTransforms) returns (r: Option<Host>, ok: bool)
      requires skeleton.Some? ==> WellFormed(skeleton.value)
      ensures skeleton.None? ==> r == skeleton && ok
      ensures skeleton.Some? ==> ok == !RangeThrows(skeleton.value, 0)
      ensures skeleton.Some? && !ok ==> r == skeleton
      ensures skeleton.Some? && ok ==> r == Some(ApplyEffect(skeleton.value, fk, entries, tf, |skeleton.value.partials|))
    {
      if skeleton.None? {
        return skeleton, true;
      }
      var h := skeleton.value;
      var p := 0;
      while p < |h.partials|
        invariant 0 <= p <= |skeleton.value.partials|
        invariant p > 0 ==> !RangeThrows(skeleton.value, 0)
        invariant h == ApplyEffect(skeleton.value, fk, entries, tf, p)
      {
        CompatibleKeepsWellFormed(skeleton.value, h);
        var done;
        h, done := ApplyToPartial(h, fk, p, tf);
        if !done {
          RangeThrowsOnlyRoot(h, p);
          return skeleton, false;
        }
        p := p + 1;
      }
      r, ok := Some(h), true;
    }

    /**
     * Dereferences the skeleton without a null check, hence a non-null host. `ok` is false when
     * the call throws; only partial 0 can throw, and it is visited first.
     */
    method ApplyToBones(h: Host, fk: Fk, bones: seq<PartialBone>, tf: PoseTransforms) returns (r: Host, ok: bool)
      requires WellFormed(h)
      ensures ok == !(0 in Group(bones) && RangeThrows(h, 0))
      ensures !ok ==> r == h
      ensures ok ==> r == GroupsEffect(h, fk, entries, Group(bones), tf, |h.partials|)
    {
      var boneMap: map<int, seq<int>> := map[];
      var k := 0;
      while k < |bones|
        invariant 0 <= k <= |bones|
        invariant boneMap == Group(bones[..k])
      {
        assert bones[..k + 1][..k] == bones[..k];
        var key := bones[k].partialIndex;
        if key !in boneMap {
          boneMap := boneMap[key := []];
        }
        boneMap := boneMap[key := boneMap[key] + [bones[k].boneIndex]];
        k := k + 1;
      }
      assert bones[..|bones|] == bones;
      r := h;
      var index := 0;
      while index < |h.partials|
        invariant 0 <= index <= |h.partials|
        invariant index > 0 ==> !(0 in boneMap && RangeThrows(h, 0))
        invariant r == GroupsEffect(h, fk, entries, boneMap, tf, index)
      {
        CompatibleKeepsWellFormed(h, r);
        if index in boneMap {
          var applied, done := ApplyToPartialBones(Some(r), fk, index, boneMap[index], tf);
          if !done {
            RangeThrowsOnlyRoot(r, index);
            return h, false;
          }
          r := applied.value;
        }
        index := index + 1;
      }
      ok := true;
    }

    /**
     * Dereferences the skeleton without a null check, hence a non-null host. `ok` is false when
     * `Enumerable.Range` throws.
     */
    method ApplyToPartial(h: Host, fk: Fk, p: nat, tf: PoseTransforms) returns (r: Host, ok: bool)
      requires WellFormed(h) && p < |h.partials|
      ensures ok == !RangeThrows(h, p)
      ensures !ok ==> r == h
      ensures ok ==> r == WholePartialEffect(h, fk, entries, p, tf)
    {
      if h.partials[p].bones.None? {
        return h, true;
      }
      var start := if p > 0 then 0 else 1;
      if |h.partials[p].bones.value| - start < 0 {
        return h, false;
      }
      var applied;
      applied, ok := ApplyToPartialBones(Some(h), fk, p, Range(start, |h.partials[p].bones.value|), tf);
      r := applied.value;
    }

    /** `ok` is false when `Enumerable.Range` throws. */
    method ApplyToPartialBones(skeleton: Option<Host>, fk: Fk, p: nat, bones: seq<int>, tf: PoseTransforms) returns (r: Option<Host>, ok: bool)
      requires skeleton.Some? ==> WellFormed(skeleton.value) && p < |skeleton.value.partials|
      ensures skeleton.None? ==> r == skeleton && ok
      ensures skeleton.Some? ==> ok == !RangeThrows(skeleton.value, p)
      ensures skeleton.Some? && !ok ==> r == skeleton
      ensures skeleton.Some? && ok ==> r == Some(PartialEffect(skeleton.value, fk, entries, p, bones, tf))
    {
      if skeleton.None? {
        return skeleton, true;
      }
      var h := skeleton.value;
      if h.partials[p].bones.None? {
        return skeleton, true;
      }
      var names := h.partials[p].bones.value;
      var offset := Identity;
      if p > 0 {
        var delta;
        h, delta := ParentSkeleton(h, fk, p);
        CompatibleKeepsWellFormed(skeleton.value, h);
        var rootIx := h.partials[p].connectedBone;
        var rotation := h.model[(p, rootIx)].rotation;
        var parentName := names[rootIx];
        if parentName != "" && parentName in entries {
          offset := Div(Div(rotation, entries[parentName].rotation), delta);
        }
        assert offset == PartialOffset(h, entries, p, delta);
      }
      if |names| - 1 < 0 {
        return skeleton, false;
      }
      PartialEffectSteps(skeleton.value, fk, entries, p, bones, tf, h, offset);
      h := ApplyToRange(h, fk, p, bones, offset, tf);
      r, ok := Some(h), true;
    }

    /**
     * The bone loop of `ApplyToPartialBones`: the bones `1 .. |names| - 1` that are also in
     * `bones`, in ascending order, each with the same offset.
     */
    method ApplyToRange(h: Host, fk: Fk, p: nat, bones: seq<int>, offset: Quat, tf: PoseTransforms) returns (r: Host)
      requires WellFormed(h) && HasPose(h, p)
      ensures r == BonesEffect(h, fk, entries, p, Intersect(1, |Names(h, p)|, bones), offset, tf)
    {
      var names := h.partials[p].bones.value;
      r := h;
      var i := 1;
      while i < |names|
        invariant 1 <= i <= if |names| < 1 then 1 else |names|
        invariant r == BonesEffect(h, fk, entries, p, Intersect(1, i, bones), offset, tf)
      {
        RangeStep(h, fk, entries, p, bones, i, offset, tf);
        if i in bones {
          r := ApplyToBone(r, fk, p, i, offset, tf);
        }
        i := i + 1;
      }
      assert Intersect(1, i, bones) == Intersect(1, |names|, bones);
    }

    method ApplyToBone(h: Host, fk: Fk, p: nat, b: nat, offset: Quat, tf: PoseTransforms) returns (r: Host)
      requires WellFormed(h) && HasPose(h, p) && b < |Names(h, p)|
      ensures r == BoneEffect(h, fk, entries, p, b, offset, tf)
    {
      var name := h.partials[p].bones.value[b];
      if name == "" || name !in entries {
        return h;
      }
      var model := entries[name];
      var initial := h.model[(p, b)];
      var target := Transform(initial.position, initial.rotation, initial.scale);
      var posRoot := p == 0 && b == 1 && tf.positionRoot;
      if posRoot {
        initial := initial.(rotation := Mul(offset, model.rotation));
      }
      if tf.position || posRoot {
        target := target.(position := model.position);
      }
      if tf.rotation {
        target := target.(rotation := Mul(offset, model.rotation));
      }
      if tf.scale {
        target := target.(scale := model.scale);
      }
      assert target == BoneTarget(h.model[(p, b)], model, offset, tf, posRoot);
      r := SetModelTransform(h, p, b, target);
      r := Propagate(r, fk, p, b, target, initial);
    }

    method ParentSkeleton(h: Host, fk: Fk, p: nat) returns (r: Host, deltaRot: Quat)
      requires WellFormed(h) && 0 < p < |h.partials|
      ensures (r, deltaRot) == ParentEffect(h, fk, p)
    {
      if !h.partials[p].pose || !h.partials[0].pose {
        return h, Identity;
      }
      var cb := h.partials[p].connectedBone;
      var initial := h.model[(p, cb)];
      var target := h.model[(0, h.partials[p].connectedParentBone)];
      deltaRot := Div(target.rotation, initial.rotation);
      var step1 := Transform(target.position, initial.rotation, initial.scale);
      r := SetModelTransform(h, p, cb, step1);
      r := Propagate(r, fk, p, cb, step1, initial);
      var step2 := Transform(target.position, Mul(deltaRot, initial.rotation), target.scale);
      r := SetModelTransform(r, p, cb, step2);
      r := Propagate(r, fk, p, cb, step2, step1);
    }
  }
}
