/**
 * The host scene graph, restated as values: a game object with its transform is
 * a `Node`, and a reference to an object inside a hierarchy is the `Path` of
 * sibling indices that leads to it from the hierarchy's root.
 */
module Scene {
  import opened Wrappers

  datatype Vector3 = Vector3(x: real, y: real, z: real)
  datatype Quaternion = Quaternion(x: real, y: real, z: real, w: real)

  /** A transform's local position, rotation and scale. */
  datatype Pose = Pose(position: Vector3, rotation: Quaternion, scale: Vector3)

  /** A collider component: its concrete component type and its serialized settings. */
  datatype Collider = Collider(kind: string, settings: seq<int>)

  /**
   * A game object. `prefab` is the prefab asset the object instantiates when it is
   * the root of a prefab instance whose source is a real prefab asset, and None
   * otherwise; on the root of a prefab variant asset it is the base prefab the variant
   * derives from. `children` are the transform's children in sibling order.
   */
  datatype Node = Node(
    name: string,
    tag: string,
    layer: int,
    colliders: seq<Collider>,
    pose: Pose,
    prefab: Option<Node>,
    children: seq<Node>)

  /** Sibling indices from a root down to one of its descendants; [] is the root itself. */
  type Path = seq<nat>

  predicate ValidPath(t: Node, p: Path)
    decreases p
  {
    p == [] || (p[0] < |t.children| && ValidPath(t.children[p[0]], p[1..]))
  }

  /** The object a valid path leads to. */
  function At(t: Node, p: Path): Node
    requires ValidPath(t, p)
    decreases p
  {
    if p == [] then t else At(t.children[p[0]], p[1..])
  }

  /** Stepping into child `i` first: paths below a child are the child's own paths. */
  lemma Descend(t: Node, i: nat, p: Path)
    ensures ValidPath(t, [i] + p) <==> i < |t.children| && ValidPath(t.children[i], p)
    ensures ValidPath(t, [i] + p) ==> At(t, [i] + p) == At(t.children[i], p)
  {
    assert ([i] + p)[1..] == p;
  }

  /**
   * Depth-first pre-order on paths: `q` is visited before `p` when it is a proper
   * prefix of `p` or branches off to an earlier sibling.
   */
  predicate PathBefore(q: Path, p: Path)
    decreases |p|
  {
    |p| > 0 && (q == [] || q[0] < p[0] || (q[0] == p[0] && PathBefore(q[1..], p[1..])))
  }

  /** The objects of a hierarchy in depth-first pre-order, the root first. */
  function Preorder(t: Node): (r: seq<Node>)
    ensures |r| >= 1 && r[0] == t
    decreases t, 1
  {
    [t] + ChildrenPreorder(t, |t.children|)
  }

  /** The pre-order walks of the first `k` children of `t`, one after the other. */
  function ChildrenPreorder(t: Node, k: nat): seq<Node>
    requires k <= |t.children|
    decreases t, 0, k
  {
    if k == 0 then [] else ChildrenPreorder(t, k - 1) + Preorder(t.children[k - 1])
  }

  /** Every object strictly below `t`, in depth-first pre-order. */
  function Descendants(t: Node): seq<Node> {
    ChildrenPreorder(t, |t.children|)
  }

  /** The hierarchy `t` with the object at path `p` replaced by `n`; everything off the path is kept. */
  function ReplaceAt(t: Node, p: Path, n: Node): (r: Node)
    requires ValidPath(t, p)
    ensures ValidPath(r, p) && At(r, p) == n
    ensures p != [] ==> r == t.(children := r.children) && |r.children| == |t.children| &&
                        forall i :: 0 <= i < |t.children| && i != p[0] ==> r.children[i] == t.children[i]
    decreases p
  {
    if p == [] then n
    else
      var child := ReplaceAt(t.children[p[0]], p[1..], n);
      var r := t.(children := t.children[p[0] := child]);
      assert p == [p[0]] + p[1..];
      Descend(r, p[0], p[1..]);
      r
  }

  /** The path of an object's parent. */
  function ParentPath(p: Path): Path
    requires p != []
  {
    p[..|p| - 1]
  }

  /** An object below the root is the child of its parent at the last index of its path. */
  lemma {:induction false} AtParent(t: Node, p: Path)
    requires ValidPath(t, p) && p != []
    ensures ValidPath(t, ParentPath(p))
    ensures p[|p| - 1] < |At(t, ParentPath(p)).children|
    ensures At(t, p) == At(t, ParentPath(p)).children[p[|p| - 1]]
    decreases p
  {
    if |p| > 1 {
      var rest := p[1..];
      AtParent(t.children[p[0]], rest);
      assert ParentPath(p) == [p[0]] + ParentPath(rest);
      Descend(t, p[0], ParentPath(rest));
    }
  }

  /** The number of objects in a hierarchy, the root included. */
  function Size(t: Node): nat {
    |Preorder(t)|
  }

  lemma {:induction false} ChildrenPreorderCovers(t: Node, k: nat, i: nat)
    requires i < k <= |t.children|
    ensures Size(t.children[i]) <= |ChildrenPreorder(t, k)|
    decreases k
  {
    if i < k - 1 {
      ChildrenPreorderCovers(t, k - 1, i);
    }
  }

  /** A child's hierarchy is smaller than its parent's. */
  lemma ChildSmaller(t: Node, i: nat)
    requires i < |t.children|
    ensures Size(t.children[i]) < Size(t)
  {
    ChildrenPreorderCovers(t, |t.children|, i);
  }

  /** The hierarchy `t` with the object at path `p` renamed to `newName`. */
  function Renamed(t: Node, p: Path, newName: string): Node
    requires ValidPath(t, p)
    decreases p
  {
    if p == [] then t.(name := newName)
    else t.(children := t.children[p[0] := Renamed(t.children[p[0]], p[1..], newName)])
  }

  /** Renaming keeps every path and every other object's name, and gives `p` the new name. */
  lemma {:induction false} RenamedAt(t: Node, p: Path, newName: string, q: Path)
    requires ValidPath(t, p)
    ensures ValidPath(Renamed(t, p, newName), q) <==> ValidPath(t, q)
    ensures ValidPath(t, q) ==>
              At(Renamed(t, p, newName), q).name == if q == p then newName else At(t, q).name
    decreases q
  {
    var r := Renamed(t, p, newName);
    if q != [] && p != [] && q[0] < |t.children| {
      var i := q[0];
      if i == p[0] {
        RenamedAt(t.children[i], p[1..], newName, q[1..]);
        assert q == p <==> q[1..] == p[1..] by {
          if q[1..] == p[1..] {
            assert q == [q[0]] + q[1..] && p == [p[0]] + p[1..];
          }
        }
      }
    }
  }

  /** `b` is `a` with at most the names of some objects changed: same attributes, same shape. */
  predicate SameButNames(a: Node, b: Node)
    decreases a
  {
    && a.(name := b.name, children := b.children) == b
    && |a.children| == |b.children|
    && forall i :: 0 <= i < |a.children| ==> SameButNames(a.children[i], b.children[i])
  }

  lemma {:induction false} SameButNamesTrans(a: Node, b: Node, c: Node)
    requires SameButNames(a, b) && SameButNames(b, c)
    ensures SameButNames(a, c)
    decreases a
  {
    forall i | 0 <= i < |a.children|
      ensures SameButNames(a.children[i], c.children[i])
    {
      SameButNamesTrans(a.children[i], b.children[i], c.children[i]);
    }
  }

  lemma {:induction false} SameButNamesRefl(a: Node)
    ensures SameButNames(a, a)
    decreases a
  {
    forall i | 0 <= i < |a.children|
      ensures SameButNames(a.children[i], a.children[i])
    {
      SameButNamesRefl(a.children[i]);
    }
  }

  /** Renaming one object changes nothing but that object's name. */
  lemma {:induction false} RenamedSameButNames(t: Node, p: Path, newName: string)
    requires ValidPath(t, p)
    ensures SameButNames(t, Renamed(t, p, newName))
    decreases p
  {
    var r := Renamed(t, p, newName);
    forall i | 0 <= i < |t.children|
      ensures SameButNames(t.children[i], r.children[i])
    {
      if p != [] && i == p[0] {
        RenamedSameButNames(t.children[i], p[1..], newName);
      } else {
        SameButNamesRefl(t.children[i]);
      }
    }
  }

  /** Objects whose names alone differ have the same paths. */
  lemma {:induction false} SameButNamesPath(a: Node, b: Node, p: Path)
    requires SameButNames(a, b)
    ensures ValidPath(a, p) <==> ValidPath(b, p)
    decreases p
  {
    if p != [] && p[0] < |a.children| {
      SameButNamesPath(a.children[p[0]], b.children[p[0]], p[1..]);
    }
  }
}
