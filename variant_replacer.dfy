/**
 * The variant replacer: finds variant A by name below a prefab's root, puts an
 * instance of variant B in its place (same name, parent and local pose), carries
 * A's tag, layer, colliders and extra children over to B, and deletes A.
 */
module VariantReplace {
  import opened Wrappers
  import opened Scene
  import SkinMesh

  /**
   * `FindChildByName`: each child is tested by name and then searched below, in sibling
   * order. That is the bone search started on each child in turn, so the root itself is
   * never a candidate.
   */
  function FindChildByName(parent: Node, name: string): (r: Option<Path>)
    ensures r.Some? ==> r.value != [] && ValidPath(parent, r.value) && At(parent, r.value).name == name
  {
    SkinMesh.FindInChildren(parent, name, 0)
  }

  /**
   * Nothing is found exactly when no object strictly below `parent` has the name, and
   * what is found is the first such object in depth-first pre-order.
   */
  lemma FindChildByNameIsFirst(parent: Node, name: string)
    ensures FindChildByName(parent, name).None? <==>
              forall p :: ValidPath(parent, p) && p != [] ==> At(parent, p).name != name
    ensures FindChildByName(parent, name).Some? ==>
              forall q :: ValidPath(parent, q) && q != [] && PathBefore(q, FindChildByName(parent, name).value) ==>
                At(parent, q).name != name
  {
    SkinMesh.FindInChildrenIsFirst(parent, name, 0);
  }

  function Max(a: nat, b: nat): nat {
    if a < b then b else a
  }

  /** A fresh instance of a prefab asset: the asset's hierarchy, connected to the asset. */
  function Instantiate(asset: Node): Node {
    asset.(prefab := Some(asset))
  }

  /**
   * `GetCorrespondingObjectFromOriginalSource` on a prefab asset: the end of its chain of
   * sources. A variant asset links to its base, so the chain is followed until an asset
   * with no base is reached.
   */
  function OriginalSource(asset: Node): (r: Node)
    ensures r.prefab.None?
    ensures asset.prefab.None? ==> r == asset
    decreases asset
  {
    if asset.prefab.Some? then OriginalSource(asset.prefab.value) else asset
  }

  /**
   * What a surplus source child becomes under the target: a new instance of the original
   * source of its prefab when it is the root of a prefab instance, a clone of it
   * otherwise; either way it carries the source child's name.
   */
  function CopyChild(sourceChild: Node): (r: Node)
    ensures r.name == sourceChild.name
    ensures sourceChild.prefab.None? ==> r == sourceChild
    ensures sourceChild.prefab.Some? ==> r.prefab.Some? && r.prefab.value.prefab.None?
  {
    if sourceChild.prefab.Some? then Instantiate(OriginalSource(sourceChild.prefab.value)).(name := sourceChild.name)
    else sourceChild
  }

  /**
   * An instance of a variant `v` of a base prefab `p` is re-created as an instance of `p`:
   * the overrides `v` makes on `p` are not carried into the copy.
   */
  lemma {:induction false} CopyOfVariantInstance(v: Node, p: Node, name: string)
    requires v.prefab == Some(p) && p.prefab.None?
    ensures CopyChild(Instantiate(v).(name := name)) == Instantiate(p).(name := name)
  {
    assert OriginalSource(v) == p;
  }

  /**
   * `merged` is `target` after `MergeDataRecursive(source, target)`: the target keeps its
   * name, pose and prefab link; it takes the source's tag, layer and colliders; children
   * paired by index are merged in turn, target children past the source's count are
   * kept, and source children past the target's count are copied in at the end.
   */
  ghost predicate Merged(source: Node, target: Node, merged: Node)
    decreases source
  {
    && merged.name == target.name && merged.pose == target.pose && merged.prefab == target.prefab
    && merged.tag == source.tag && merged.layer == source.layer && merged.colliders == source.colliders
    && |merged.children| == Max(|source.children|, |target.children|)
    && (forall k :: 0 <= k < |source.children| && k < |target.children| ==>
          Merged(source.children[k], target.children[k], merged.children[k]))
    && (forall k :: |source.children| <= k < |target.children| ==> merged.children[k] == target.children[k])
    && (forall k :: |target.children| <= k < |source.children| ==> merged.children[k] == CopyChild(source.children[k]))
  }

  /**
   * `MergeDataRecursive`: the attributes are copied, then the source's children are
   * walked by index, merging into the target's child at the same index or appending a
   * copy when the target has none.
   */
  method MergeDataRecursive(source: Node, target: Node) returns (merged: Node)
    ensures Merged(source, target, merged)
    decreases source
  {
    var targetChildCount := |target.children|;
    var children := target.children;
    for i := 0 to |source.children|
      invariant |children| == Max(i, targetChildCount)
      invariant forall k :: 0 <= k < i && k < targetChildCount ==>
                  Merged(source.children[k], target.children[k], children[k])
      invariant forall k :: i <= k < targetChildCount ==> children[k] == target.children[k]
      invariant forall k :: targetChildCount <= k < i ==> children[k] == CopyChild(source.children[k])
    {
      var sourceChild := source.children[i];
      if i < targetChildCount {
        var m := MergeDataRecursive(sourceChild, children[i]);
        children := children[i := m];
      } else {
        children := children + [CopyChild(sourceChild)];
      }
    }
    merged := target.(tag := source.tag, layer := source.layer, colliders := source.colliders, children := children);
  }

  /** Merging is deterministic: a source and a target have one merged result. */
  lemma {:induction false} MergedUnique(source: Node, target: Node, m1: Node, m2: Node)
    requires Merged(source, target, m1) && Merged(source, target, m2)
    ensures m1 == m2
    decreases source
  {
    forall k | 0 <= k < |source.children| && k < |target.children|
      ensures m1.children[k] == m2.children[k]
    {
      MergedUnique(source.children[k], target.children[k], m1.children[k], m2.children[k]);
    }
    assert m1.children == m2.children;
  }

  /** Merging an object into an identical copy of itself changes nothing. */
  lemma {:induction false} MergeIntoSelf(n: Node, merged: Node)
    requires Merged(n, n, merged)
    ensures merged == n
    decreases n
  {
    forall k | 0 <= k < |n.children|
      ensures merged.children[k] == n.children[k]
    {
      MergeIntoSelf(n.children[k], merged.children[k]);
    }
    assert merged.children == n.children;
  }

  /** No surplus source child, at any paired level, is a prefab instance root: every copy is a clone. */
  ghost predicate ClonesOnly(source: Node, target: Node)
    decreases source
  {
    && (forall k :: |target.children| <= k < |source.children| ==> source.children[k].prefab.None?)
    && (forall k :: 0 <= k < |source.children| && k < |target.children| ==>
          ClonesOnly(source.children[k], target.children[k]))
  }

  /**
   * Running the merge a second time with the same source changes nothing, as long as
   * every copied child was a clone (a prefab instance is re-created from its asset and
   * does not carry the source child's attributes).
   */
  lemma {:induction false} MergeIdempotent(source: Node, target: Node, once: Node, twice: Node)
    requires ClonesOnly(source, target)
    requires Merged(source, target, once) && Merged(source, once, twice)
    ensures twice == once
    decreases source
  {
    forall k | 0 <= k < |source.children|
      ensures twice.children[k] == once.children[k]
    {
      if k < |target.children| {
        MergeIdempotent(source.children[k], target.children[k], once.children[k], twice.children[k]);
      } else {
        assert once.children[k] == source.children[k];
        MergeIntoSelf(source.children[k], twice.children[k]);
      }
    }
    assert twice.children == once.children;
  }

  /**
   * The replacer window's state: the prefab hierarchy being edited, the object whose
   * name picks variant A, and the prefab asset variant B.
   */
  class VariantReplacer {
    var prefabRoot: Node
    var variantA: Node
    var variantB: Node

    constructor (prefabRoot: Node, variantA: Node, variantB: Node)
      ensures this.prefabRoot == prefabRoot && this.variantA == variantA && this.variantB == variantB
    {
      this.prefabRoot := prefabRoot;
      this.variantA := variantA;
      this.variantB := variantB;
    }

    /**
     * `ReplaceVariant`: when no object below the root is named like variant A nothing
     * changes. Otherwise an instance of B named like A, with the found object's local
     * pose and the found object merged into it, becomes the last child of the found
     * object's parent, and the found object is removed.
     */
    method ReplaceVariant() returns (found: Option<Path>)
      modifies this`prefabRoot
      ensures found == FindChildByName(old(prefabRoot), variantA.name)
      ensures found.None? ==> prefabRoot == old(prefabRoot)
      ensures found.Some? ==>
                var p := found.value;
                var idx := p[|p| - 1];
                var original := At(old(prefabRoot), p);
                && ValidPath(old(prefabRoot), ParentPath(p)) && ValidPath(prefabRoot, ParentPath(p))
                && var before := At(old(prefabRoot), ParentPath(p)).children;
                   var after := At(prefabRoot, ParentPath(p)).children;
                   && idx < |before| && |after| == |before|
                   && after[..|after| - 1] == before[..idx] + before[idx + 1..]
                   && var replacement := after[|after| - 1];
                      && replacement.name == variantA.name && replacement.pose == original.pose
                      && Merged(original, Instantiate(variantB).(name := variantA.name, pose := original.pose), replacement)
      ensures found.Some? ==>
                var parentPath := ParentPath(found.value);
                prefabRoot == ReplaceAt(old(prefabRoot), parentPath,
                                        At(old(prefabRoot), parentPath).(children := At(prefabRoot, parentPath).children))
    {
      found := FindChildByName(prefabRoot, variantA.name);
      if found.None? {
        return;
      }
      var p := found.value;
      var foundNode := At(prefabRoot, p);
      AtParent(prefabRoot, p);
      var parentPath := ParentPath(p);
      var idx := p[|p| - 1];
      var parent := At(prefabRoot, parentPath);
      var newVariant := Instantiate(variantB).(name := variantA.name, pose := foundNode.pose);
      var merged := MergeDataRecursive(foundNode, newVariant);
      var siblings := parent.children[..idx] + parent.children[idx + 1..] + [merged];
      assert siblings[..|siblings| - 1] == parent.children[..idx] + parent.children[idx + 1..];
      prefabRoot := ReplaceAt(prefabRoot, parentPath, parent.(children := siblings));
    }
  }
}
