/**
 * The skinned-mesh bone tool: rebinding an accessory mesh to a body's skeleton,
 * aligning one bone array to another by bone name, and finding a bone by name.
 */
module SkinMesh {
  import opened Wrappers
  import opened Scene
  import opened Collections

  /** The names carried by a bone array. */
  ghost function NamesOf(bones: seq<Node>): set<string> {
    set b | b in bones :: b.name
  }

  ghost predicate DistinctNames(bones: seq<Node>) {
    forall i, j :: 0 <= i < j < |bones| ==> bones[i].name != bones[j].name
  }

  /**
   * What aligning array B to array A yields: a length mismatch (the call answers
   * false and B keeps its contents), a duplicate bone name in B (building the
   * name dictionary throws), or the new B together with the all-matched flag.
   */
  datatype Alignment =
    | LengthMismatch
    | DuplicateName(name: string)
    | Aligned(bones: seq<Option<Node>>, allMatch: bool)
  {
    /** The boolean the source returns. */
    function Success(): bool {
      Aligned? && allMatch
    }
  }

  /**
   * `bones` follows `a` slot by slot: slot i holds a bone of `b` named like `a[i]`,
   * or is empty exactly when `b` has no bone of that name.
   */
  ghost predicate AlignedTo(a: seq<Node>, b: seq<Node>, bones: seq<Option<Node>>) {
    && |bones| == |a|
    && (forall i :: 0 <= i < |a| && bones[i].Some? ==> bones[i].value in b && bones[i].value.name == a[i].name)
    && (forall i :: 0 <= i < |a| ==> (bones[i].None? <==> a[i].name !in NamesOf(b)))
  }

  /** The complete outcome of aligning `b` to `a`. */
  ghost predicate IsAlignment(a: seq<Node>, b: seq<Node>, r: Alignment) {
    && (r.LengthMismatch? <==> |a| != |b|)
    && (r.DuplicateName? <==> |a| == |b| && !DistinctNames(b))
    && (r.DuplicateName? ==> exists i, j :: 0 <= i < j < |b| && b[i].name == b[j].name == r.name)
    && (r.Aligned? ==> AlignedTo(a, b, r.bones))
    && (r.Aligned? ==> (r.allMatch <==> forall i :: 0 <= i < |a| ==> a[i].name in NamesOf(b)))
  }

  /**
   * Reorders `b` to follow `a` by exact bone name, leaving an empty slot for every
   * name of `a` that `b` lacks; answers whether every name was found.
   */
  method AlignAndCheckTransforms(a: seq<Node>, b: seq<Node>) returns (r: Alignment)
    ensures IsAlignment(a, b, r)
  {
    if |a| != |b| {
      return LengthMismatch;
    }
    var byName, duplicate := IndexByName(b);
    if duplicate.Some? {
      return DuplicateName(duplicate.value);
    }
    var aligned, allMatch := AlignByName(a, b, byName);
    return Aligned(aligned, allMatch);
  }

  /**
   * `ToDictionary(b => b.name)`: the bones of `b` keyed by name, or the first name met
   * a second time, on which building the dictionary throws.
   */
  method IndexByName(b: seq<Node>) returns (byName: map<string, Node>, duplicate: Option<string>)
    ensures duplicate.None? <==> DistinctNames(b)
    ensures duplicate.Some? ==> exists i, j :: 0 <= i < j < |b| && b[i].name == b[j].name == duplicate.value
    ensures duplicate.None? ==> byName.Keys == NamesOf(b)
    ensures forall n :: n in byName ==> byName[n] in b && byName[n].name == n
  {
    byName, duplicate := map[], None;
    for j := 0 to |b|
      invariant byName.Keys == NamesOf(b[..j])
      invariant forall n :: n in byName ==> byName[n] in b && byName[n].name == n
      invariant DistinctNames(b[..j])
    {
      if b[j].name in byName {
        ghost var k :| 0 <= k < j && b[k].name == b[j].name;
        return byName, Some(b[j].name);
      }
      byName := byName[b[j].name := b[j]];
      assert b[..j + 1] == b[..j] + [b[j]];
    }
    assert b[..|b|] == b;
  }

  /** The aligning loop: slot i gets the bone of `b` named like `a[i]`, or stays empty. */
  method AlignByName(a: seq<Node>, b: seq<Node>, byName: map<string, Node>) returns (aligned: seq<Option<Node>>, allMatch: bool)
    requires byName.Keys == NamesOf(b)
    requires forall n :: n in byName ==> byName[n] in b && byName[n].name == n
    ensures AlignedTo(a, b, aligned)
    ensures allMatch <==> forall i :: 0 <= i < |a| ==> a[i].name in NamesOf(b)
  {
    aligned, allMatch := [], true;
    for i := 0 to |a|
      invariant |aligned| == i
      invariant forall k :: 0 <= k < i && aligned[k].Some? ==> aligned[k].value in b && aligned[k].value.name == a[k].name
      invariant forall k :: 0 <= k < i ==> (aligned[k].None? <==> a[k].name !in NamesOf(b))
      invariant allMatch <==> forall k :: 0 <= k < i ==> a[k].name in NamesOf(b)
    {
      if a[i].name in byName {
        aligned := aligned + [Some(byName[a[i].name])];
      } else {
        allMatch := false;
        aligned := aligned + [None];
      }
    }
  }

  /** With distinct names in `b`, the alignment is determined: there is one way to fill the slots. */
  lemma AlignmentIsUnique(a: seq<Node>, b: seq<Node>, x: seq<Option<Node>>, y: seq<Option<Node>>)
    requires DistinctNames(b)
    requires AlignedTo(a, b, x) && AlignedTo(a, b, y)
    ensures x == y
  {
    forall i | 0 <= i < |a|
      ensures x[i] == y[i]
    {
      if x[i].Some? {
        var j :| 0 <= j < |b| && b[j] == x[i].value;
        var k :| 0 <= k < |b| && b[k] == y[i].value;
        assert j == k;
      }
    }
  }

  /** The bones of a fully filled alignment. */
  function Filled(bones: seq<Option<Node>>): (r: seq<Node>)
    requires forall i :: 0 <= i < |bones| ==> bones[i].Some?
    ensures |r| == |bones| && forall i :: 0 <= i < |r| ==> Some(r[i]) == bones[i]
  {
    if bones == [] then [] else [bones[0].value] + Filled(bones[1..])
  }

  lemma FilledDistinct(a: seq<Node>, b: seq<Node>, bones: seq<Option<Node>>)
    requires DistinctNames(a) && AlignedTo(a, b, bones)
    requires forall i :: 0 <= i < |bones| ==> bones[i].Some?
    ensures Distinct(Filled(bones))
  {
    var filled := Filled(bones);
    forall i, j | 0 <= i < j < |filled| ensures filled[i] != filled[j] {
      assert Some(filled[i]) == bones[i] && Some(filled[j]) == bones[j];
      assert filled[i].name == a[i].name && filled[j].name == a[j].name;
    }
  }

  lemma FilledWithin(a: seq<Node>, b: seq<Node>, bones: seq<Option<Node>>)
    requires AlignedTo(a, b, bones)
    requires forall i :: 0 <= i < |bones| ==> bones[i].Some?
    ensures (set x | x in Filled(bones)) <= (set x | x in b)
  {
    var filled := Filled(bones);
    forall x | x in filled ensures x in b {
      var i :| 0 <= i < |filled| && filled[i] == x;
      assert Some(x) == bones[i];
    }
  }

  /**
   * When A and B have the same length and each has distinct names, and every name of A
   * was found, the aligned array is a permutation of B.
   */
  lemma AlignedIsPermutation(a: seq<Node>, b: seq<Node>, bones: seq<Option<Node>>)
    requires |a| == |b| && DistinctNames(a) && DistinctNames(b)
    requires AlignedTo(a, b, bones)
    requires forall i :: 0 <= i < |a| ==> a[i].name in NamesOf(b)
    ensures forall i :: 0 <= i < |bones| ==> bones[i].Some?
    ensures multiset(Filled(bones)) == multiset(b)
  {
    assert forall i :: 0 <= i < |bones| ==> bones[i].Some?;
    var filled := Filled(bones);
    FilledDistinct(a, b, bones);
    assert Distinct(b);
    FilledWithin(a, b, bones);
    DistinctSubsetIsPermutation(filled, b);
  }

  /**
   * The bone named `boneName` in the hierarchy under `root`: the root itself when its
   * name matches, otherwise the first match in depth-first child order.
   */
  function FindBoneByName(root: Node, boneName: string): (r: Option<Path>)
    ensures r.Some? ==> ValidPath(root, r.value) && At(root, r.value).name == boneName
    decreases root, 1
  {
    if root.name == boneName then Some([]) else FindInChildren(root, boneName, 0)
  }

  /** The first match of `boneName` below the children of `root` from index `i` on. */
  function FindInChildren(root: Node, boneName: string, i: nat): (r: Option<Path>)
    ensures r.Some? ==> |r.value| > 0 && i <= r.value[0]
    ensures r.Some? ==> ValidPath(root, r.value) && At(root, r.value).name == boneName
    decreases root, 0, |root.children| - i
  {
    if i >= |root.children| then None
    else match FindBoneByName(root.children[i], boneName)
      case Some(p) => Descend(root, i, p); Some([i] + p)
      case None => FindInChildren(root, boneName, i + 1)
  }

  /**
   * `FindBoneByName` finds nothing exactly when no bone of the hierarchy has the name,
   * and what it finds is the first such bone in depth-first pre-order.
   */
  lemma {:induction false} FindBoneByNameIsFirst(root: Node, boneName: string)
    ensures FindBoneByName(root, boneName).None? <==>
              forall p :: ValidPath(root, p) ==> At(root, p).name != boneName
    ensures FindBoneByName(root, boneName).Some? ==>
              forall q :: ValidPath(root, q) && PathBefore(q, FindBoneByName(root, boneName).value) ==>
                At(root, q).name != boneName
    decreases root, 1
  {
    if root.name != boneName {
      FindInChildrenIsFirst(root, boneName, 0);
      forall p | ValidPath(root, p) && p != [] ensures p[0] >= 0 { }
    } else {
      assert ValidPath(root, []) && At(root, []).name == boneName;
    }
  }

  lemma {:induction false} FindInChildrenIsFirst(root: Node, boneName: string, i: nat)
    ensures FindInChildren(root, boneName, i).None? <==>
              forall p :: ValidPath(root, p) && |p| > 0 && p[0] >= i ==> At(root, p).name != boneName
    ensures FindInChildren(root, boneName, i).Some? ==>
              forall q :: ValidPath(root, q) && |q| > 0 && q[0] >= i && PathBefore(q, FindInChildren(root, boneName, i).value) ==>
                At(root, q).name != boneName
    decreases root, 0, |root.children| - i
  {
    if i < |root.children| {
      var child := root.children[i];
      FindBoneByNameIsFirst(child, boneName);
      // every path below `root` that starts at child `i` is a path of `child`
      forall q | ValidPath(root, q) && |q| > 0 && q[0] == i
        ensures ValidPath(child, q[1..]) && At(root, q) == At(child, q[1..])
      {
        assert q == [i] + q[1..];
        Descend(root, i, q[1..]);
      }
      match FindBoneByName(child, boneName)
      case Some(p) =>
        Descend(root, i, p);
        assert ([i] + p)[1..] == p;
      case None =>
        FindInChildrenIsFirst(root, boneName, i + 1);
        assert FindInChildren(root, boneName, i) == FindInChildren(root, boneName, i + 1);
        forall q | ValidPath(root, q) && |q| > 0 && q[0] == i
          ensures At(root, q).name != boneName
        {
          assert ValidPath(child, q[1..]) && At(root, q) == At(child, q[1..]);
          assert FindBoneByName(child, boneName).None?;
          assert At(child, q[1..]).name != boneName;
        }
    }
  }

  /** A skinned mesh renderer: the bones its mesh is bound to and the root of that skeleton. */
  class SkinnedMeshRenderer {
    var rootBone: Option<Node>
    var bones: seq<Node>

    constructor (rootBone: Option<Node>, bones: seq<Node>)
      ensures this.rootBone == rootBone && this.bones == bones
    {
      this.rootBone := rootBone;
      this.bones := bones;
    }
  }

  /** The tool component: a body renderer to copy from and an accessory renderer to rebind. */
  class SkinMeshTool {
    var originalSkinnedMesh: SkinnedMeshRenderer?
    var newSkinnedMesh: SkinnedMeshRenderer?

    constructor (original: SkinnedMeshRenderer?, accessory: SkinnedMeshRenderer?)
      ensures originalSkinnedMesh == original && newSkinnedMesh == accessory
    {
      originalSkinnedMesh := original;
      newSkinnedMesh := accessory;
    }

    /**
     * Rebinds the accessory to the body's skeleton, all or nothing: with both renderers
     * set and equal bone counts the accessory takes the body's root bone and bones;
     * otherwise nothing changes. Answers whether it rebound.
     */
    method Replace() returns (replaced: bool)
      modifies newSkinnedMesh
      ensures replaced <==>
                originalSkinnedMesh != null && newSkinnedMesh != null &&
                |old(originalSkinnedMesh.bones)| == |old(newSkinnedMesh.bones)|
      ensures replaced ==>
                newSkinnedMesh.rootBone == old(originalSkinnedMesh.rootBone) &&
                newSkinnedMesh.bones == old(originalSkinnedMesh.bones)
      ensures originalSkinnedMesh != null ==>
                originalSkinnedMesh.rootBone == old(originalSkinnedMesh.rootBone) &&
                originalSkinnedMesh.bones == old(originalSkinnedMesh.bones)
      ensures !replaced && newSkinnedMesh != null ==> unchanged(newSkinnedMesh)
    {
      if originalSkinnedMesh == null || newSkinnedMesh == null {
        return false;
      }
      if |originalSkinnedMesh.bones| != |newSkinnedMesh.bones| {
        return false;
      }
      newSkinnedMesh.rootBone := originalSkinnedMesh.rootBone;
      newSkinnedMesh.bones := originalSkinnedMesh.bones;
      return true;
    }

    /**
     * Aligns the accessory's bone array to the body's. The aligned array is only bound
     * to a local, so neither renderer changes: the method modifies nothing.
     */
    method Sort() returns (r: Alignment)
      requires originalSkinnedMesh != null && newSkinnedMesh != null
      ensures IsAlignment(originalSkinnedMesh.bones, newSkinnedMesh.bones, r)
    {
      r := AlignAndCheckTransforms(originalSkinnedMesh.bones, newSkinnedMesh.bones);
    }
  }
}
