/**
 * The batch operations editor: keyword search below a chosen object, and renaming
 * of the selected objects in hierarchy order to `base (n)`, `base (n+1)`, ….
 */
module BatchOperations {
  import opened Wrappers
  import opened Strings
  import opened Scene
  import opened Collections

  // ---------------------------------------------------------------------------
  // Search

  /** The name test of one search level: equality in exact mode, substring otherwise. */
  predicate NameMatches(name: string, keyword: string, equal: bool) {
    if equal then name == keyword else Contains(name, keyword)
  }

  /** Every path of `ps` extended at the front by `at`. */
  function Prefixed(at: Path, ps: seq<Path>): (r: seq<Path>)
    ensures |r| == |ps|
  {
    seq(|ps|, i requires 0 <= i < |ps| => at + ps[i])
  }

  lemma PrefixedNil(ps: seq<Path>)
    ensures Prefixed([], ps) == ps
  {
    assert forall i :: 0 <= i < |ps| ==> [] + ps[i] == ps[i];
  }

  lemma PrefixedAppend(at: Path, x: seq<Path>, y: seq<Path>)
    ensures Prefixed(at, x + y) == Prefixed(at, x) + Prefixed(at, y)
  {
  }

  lemma PrefixedTwice(at: Path, i: nat, ps: seq<Path>)
    ensures Prefixed(at, Prefixed([i], ps)) == Prefixed(at + [i], ps)
  {
    forall k | 0 <= k < |ps|
      ensures at + ([i] + ps[k]) == (at + [i]) + ps[k]
    {
    }
  }

  /**
   * What `SearchChildren` collects below `t`: for each child in sibling order, the
   * child itself when its name passes this level's test, then what the search below
   * the child collects. The search below a child always runs in substring mode.
   */
  function SearchPaths(t: Node, keyword: string, equal: bool): seq<Path>
    decreases t, 1
  {
    ChildrenSearch(t, keyword, equal, |t.children|)
  }

  function ChildrenSearch(t: Node, keyword: string, equal: bool, k: nat): seq<Path>
    requires k <= |t.children|
    decreases t, 0, k
  {
    if k == 0 then []
    else
      var child := t.children[k - 1];
      ChildrenSearch(t, keyword, equal, k - 1) +
      (if NameMatches(child.name, keyword, equal) then [[k - 1]] else []) +
      Prefixed([k - 1], SearchPaths(child, keyword, false))
  }

  /**
   * The search finds exactly the objects strictly below `t` whose names pass the test;
   * the exact test applies to the direct children only, every deeper object is tested
   * for a substring even in exact mode.
   */
  lemma SearchPathsMembers(t: Node, keyword: string, equal: bool, p: Path)
    ensures p in SearchPaths(t, keyword, equal) <==>
              p != [] && ValidPath(t, p) && NameMatches(At(t, p).name, keyword, equal && |p| == 1)
    decreases t, 1
  {
    ChildrenSearchMembers(t, keyword, equal, |t.children|, p);
  }

  lemma {:induction false} ChildrenSearchMembers(t: Node, keyword: string, equal: bool, k: nat, p: Path)
    requires k <= |t.children|
    ensures p in ChildrenSearch(t, keyword, equal, k) <==>
              p != [] && p[0] < k && ValidPath(t, p) && NameMatches(At(t, p).name, keyword, equal && |p| == 1)
    decreases t, 0, k
  {
    if k > 0 {
      var i := k - 1;
      var child := t.children[i];
      var front := ChildrenSearch(t, keyword, equal, i);
      var here: seq<Path> := if NameMatches(child.name, keyword, equal) then [[i]] else [];
      var below := SearchPaths(child, keyword, false);
      var tail := Prefixed([i], below);
      assert ChildrenSearch(t, keyword, equal, k) == front + here + tail;
      ChildrenSearchMembers(t, keyword, equal, i, p);
      if p != [] && p[0] == i {
        assert p == [i] + p[1..];
        Descend(t, i, p[1..]);
        SearchPathsMembers(child, keyword, false, p[1..]);
        PrefixedMembers(i, below, p);
        assert p !in front;
        if |p| == 1 {
          assert p == [i] && p[1..] == [];
        }
      } else {
        PrefixedMembers(i, below, p);
      }
    }
  }

  /** The paths of `Prefixed([i], ps)` are exactly `[i] + q` for the paths `q` of `ps`. */
  lemma PrefixedMembers(i: nat, ps: seq<Path>, p: Path)
    ensures p in Prefixed([i], ps) <==> p != [] && p[0] == i && p[1..] in ps
  {
    var r := Prefixed([i], ps);
    if p in r {
      var j :| 0 <= j < |r| && r[j] == p;
      assert ps[j] == p[1..];
    }
    if p != [] && p[0] == i && p[1..] in ps {
      var j :| 0 <= j < |ps| && ps[j] == p[1..];
      assert r[j] == p;
    }
  }

  /** A path that starts at an earlier sibling, or is a proper prefix, is visited first; prefixing keeps the order. */
  lemma {:induction false} PrefixedBefore(at: Path, q: Path, p: Path)
    requires PathBefore(q, p)
    ensures PathBefore(at + q, at + p)
    decreases |at|
  {
    if at == [] {
      assert at + q == q && at + p == p;
    } else {
      assert (at + q)[1..] == at[1..] + q && (at + p)[1..] == at[1..] + p;
      assert (at + q)[0] == at[0] == (at + p)[0];
      PrefixedBefore(at[1..], q, p);
    }
  }

  /** Each path of the sequence comes strictly before the next in pre-order. */
  predicate Ordered(r: seq<Path>) {
    forall i, j :: 0 <= i < j < |r| ==> PathBefore(r[i], r[j])
  }

  /** Two ordered runs, every path of the first before every path of the second, make one ordered run. */
  lemma ConcatOrdered(x: seq<Path>, y: seq<Path>)
    requires Ordered(x) && Ordered(y)
    requires forall a, b :: 0 <= a < |x| && 0 <= b < |y| ==> PathBefore(x[a], y[b])
    ensures Ordered(x + y)
  {
    var r := x + y;
    forall a, b | 0 <= a < b < |r|
      ensures PathBefore(r[a], r[b])
    {
      if b < |x| {
        assert r[a] == x[a] && r[b] == x[b];
      } else if a >= |x| {
        assert r[a] == y[a - |x|] && r[b] == y[b - |x|];
      } else {
        assert r[a] == x[a] && r[b] == y[b - |x|];
      }
    }
  }

  /** The share of child `i`: the child (when it matches) and then its own results, all below `[i]`. */
  lemma ChildShareOrdered(i: nat, here: seq<Path>, below: seq<Path>)
    requires here == [] || here == [[i]]
    requires Ordered(below) && forall a :: 0 <= a < |below| ==> below[a] != []
    ensures var share := here + Prefixed([i], below);
            Ordered(share) && forall a :: 0 <= a < |share| ==> share[a] != [] && share[a][0] == i
  {
    var tail := Prefixed([i], below);
    forall a, b | 0 <= a < b < |tail|
      ensures PathBefore(tail[a], tail[b])
    {
      PrefixedBefore([i], below[a], below[b]);
    }
    forall b | 0 <= b < |tail|
      ensures PathBefore([i], tail[b])
    {
      assert tail[b] == [i] + below[b];
      assert tail[b][1..] == below[b];
    }
    ConcatOrdered(here, tail);
  }

  /** Results come in depth-first pre-order: each one strictly before the next, so none is repeated. */
  lemma SearchPathsOrdered(t: Node, keyword: string, equal: bool)
    ensures Ordered(SearchPaths(t, keyword, equal))
    ensures forall a :: 0 <= a < |SearchPaths(t, keyword, equal)| ==> SearchPaths(t, keyword, equal)[a] != []
    decreases t, 1
  {
    ChildrenSearchOrdered(t, keyword, equal, |t.children|);
  }

  lemma {:induction false} ChildrenSearchOrdered(t: Node, keyword: string, equal: bool, k: nat)
    requires k <= |t.children|
    ensures var r := ChildrenSearch(t, keyword, equal, k);
            Ordered(r) && forall a :: 0 <= a < |r| ==> r[a] != [] && r[a][0] < k
    decreases t, 0, k
  {
    if k > 0 {
      var i := k - 1;
      var child := t.children[i];
      var front := ChildrenSearch(t, keyword, equal, i);
      var here: seq<Path> := if NameMatches(child.name, keyword, equal) then [[i]] else [];
      var below := SearchPaths(child, keyword, false);
      var share := here + Prefixed([i], below);
      ChildrenSearchOrdered(t, keyword, equal, i);
      SearchPathsOrdered(child, keyword, false);
      ChildShareOrdered(i, here, below);
      forall a, b | 0 <= a < |front| && 0 <= b < |share|
        ensures PathBefore(front[a], share[b])
      {
        assert front[a] != [] && front[a][0] < i && share[b][0] == i;
      }
      ConcatOrdered(front, share);
      assert ChildrenSearch(t, keyword, equal, k) == front + share;
    }
  }

  /**
   * `SearchChildren`: nothing for a null parent; otherwise, for each child, the child is
   * appended to the results when it passes this level's test, and the search continues
   * below it in substring mode (the recursive call leaves `equal` at its default).
   * Objects are named by their paths, `at` being the parent's.
   */
  method SearchChildren(parent: Option<Node>, at: Path, keyword: string, results: seq<Path>, equal: bool)
    returns (out: seq<Path>)
    ensures parent.None? ==> out == results
    ensures parent.Some? ==> out == results + Prefixed(at, SearchPaths(parent.value, keyword, equal))
    decreases if parent.Some? then Size(parent.value) else 0
  {
    out := results;
    if parent.None? {
      return;
    }
    var node := parent.value;
    for i := 0 to |node.children|
      invariant out == results + Prefixed(at, ChildrenSearch(node, keyword, equal, i))
    {
      var child := node.children[i];
      var matched := out;
      if NameMatches(child.name, keyword, equal) {
        matched := out + [at + [i]];
      }
      ChildSmaller(node, i);
      out := SearchChildren(Some(child), at + [i], keyword, matched, false);
      SearchChildrenStep(node, at, keyword, equal, i, results, matched, out);
    }
  }

  /** The loop step of `SearchChildren`: child `i` and what lies below it join the results. */
  lemma SearchChildrenStep(node: Node, at: Path, keyword: string, equal: bool, i: nat,
                           results: seq<Path>, matched: seq<Path>, out: seq<Path>)
    requires i < |node.children|
    requires matched == results + Prefixed(at, ChildrenSearch(node, keyword, equal, i)) +
                        (if NameMatches(node.children[i].name, keyword, equal) then [at + [i]] else [])
    requires out == matched + Prefixed(at + [i], SearchPaths(node.children[i], keyword, false))
    ensures out == results + Prefixed(at, ChildrenSearch(node, keyword, equal, i + 1))
  {
    SearchStep(node, at, keyword, equal, i);
  }

  /** One child's share of the search, seen from the parent's path. */
  lemma SearchStep(node: Node, at: Path, keyword: string, equal: bool, i: nat)
    requires i < |node.children|
    ensures var child := node.children[i];
            Prefixed(at, ChildrenSearch(node, keyword, equal, i + 1)) ==
            Prefixed(at, ChildrenSearch(node, keyword, equal, i)) +
            (if NameMatches(child.name, keyword, equal) then [at + [i]] else []) +
            Prefixed(at + [i], SearchPaths(child, keyword, false))
  {
    var child := node.children[i];
    var before := ChildrenSearch(node, keyword, equal, i);
    var here: seq<Path> := if NameMatches(child.name, keyword, equal) then [[i]] else [];
    var below := Prefixed([i], SearchPaths(child, keyword, false));
    assert ChildrenSearch(node, keyword, equal, i + 1) == before + here + below;
    PrefixedAppend(at, before + here, below);
    PrefixedAppend(at, before, here);
    PrefixedTwice(at, i, SearchPaths(child, keyword, false));
    assert Prefixed(at, here) == if NameMatches(child.name, keyword, equal) then [at + [i]] else [];
  }

  /** What the search button leads to. */
  datatype SearchOutcome = Refused | NothingFound | Selected(objects: seq<Path>)

  /**
   * The search button: refused without a parent object or with an empty keyword;
   * otherwise the objects found below the parent are selected, or none are found.
   */
  method SearchAndSelect(rootObject: Option<Node>, keyword: string, equal: bool) returns (outcome: SearchOutcome)
    ensures rootObject.None? || keyword == [] <==> outcome == Refused
    ensures outcome.NothingFound? <==>
              rootObject.Some? && keyword != [] && SearchPaths(rootObject.value, keyword, equal) == []
    ensures outcome.Selected? ==> outcome.objects == SearchPaths(rootObject.value, keyword, equal) && outcome.objects != []
  {
    if rootObject.None? || keyword == [] {
      return Refused;
    }
    var matched := SearchChildren(rootObject, [], keyword, [], equal);
    PrefixedNil(SearchPaths(rootObject.value, keyword, equal));
    assert matched == SearchPaths(rootObject.value, keyword, equal);
    if |matched| > 0 {
      outcome := Selected(matched);
    } else {
      outcome := NothingFound;
    }
  }

  // ---------------------------------------------------------------------------
  // Hierarchy paths

  /** A selected object: the index of its root among the scene's roots, and its path below that root. */
  datatype ObjectRef = ObjectRef(root: nat, path: Path)

  predicate ValidRef(roots: seq<Node>, o: ObjectRef) {
    o.root < |roots| && ValidPath(roots[o.root], o.path)
  }

  function NameAt(roots: seq<Node>, o: ObjectRef): string
    requires ValidRef(roots, o)
  {
    At(roots[o.root], o.path).name
  }

  /**
   * `GetHierarchyPath`: a root's path is its name; any other object's is its parent's
   * path, a `/` and its sibling index written with at least four digits.
   */
  function HierarchyPath(rootName: string, p: Path): string
    decreases |p|
  {
    if p == [] then rootName
    else HierarchyPath(rootName, p[..|p| - 1]) + "/" + PadDecimal(p[|p| - 1], 4)
  }

  /** The part of a hierarchy path below the root: one `/` and padded index per level, from the top. */
  function Steps(p: Path): (s: string)
    ensures p != [] ==> s != [] && s[0] == '/'
  {
    if p == [] then [] else "/" + PadDecimal(p[0], 4) + Steps(p[1..])
  }

  lemma {:induction false} StepsAppend(p: Path, i: nat)
    ensures Steps(p + [i]) == Steps(p) + "/" + PadDecimal(i, 4)
    decreases |p|
  {
    if p != [] {
      assert (p + [i])[0] == p[0] && (p + [i])[1..] == p[1..] + [i];
      StepsAppend(p[1..], i);
    } else {
      assert p + [i] == [i];
    }
  }

  /** A hierarchy path is the root's name followed by the steps down to the object. */
  lemma {:induction false} HierarchyPathSteps(rootName: string, p: Path)
    ensures HierarchyPath(rootName, p) == rootName + Steps(p)
    decreases |p|
  {
    if p != [] {
      var parent := p[..|p| - 1];
      HierarchyPathSteps(rootName, parent);
      assert p == parent + [p[|p| - 1]];
      StepsAppend(parent, p[|p| - 1]);
    }
  }

  /** The four digits of an index below 10000, as `ToString("D4")` writes them. */
  function FourDigits(n: nat): string
    requires n < 10000
  {
    [DigitChar(n / 1000), DigitChar(n / 100 % 10), DigitChar(n / 10 % 10), DigitChar(n % 10)]
  }

  lemma PadFour(n: nat)
    requires n < 10000
    ensures PadDecimal(n, 4) == FourDigits(n)
  {
    if n < 10 {
      PadOneDigit(n);
    } else if n < 100 {
      PadTwoDigits(n);
    } else if n < 1000 {
      PadThreeDigits(n);
    } else {
      PadFourDigits(n);
    }
  }

  lemma PadOneDigit(n: nat)
    requires n < 10
    ensures PadDecimal(n, 4) == FourDigits(n)
  {
    assert NatToString(n) == [DigitChar(n)];
    assert n / 1000 == n / 100 % 10 == n / 10 % 10 == 0 && n % 10 == n;
    assert seq(3, _ => '0') == [DigitChar(0), DigitChar(0), DigitChar(0)];
  }

  lemma PadTwoDigits(n: nat)
    requires 10 <= n < 100
    ensures PadDecimal(n, 4) == FourDigits(n)
  {
    var d1, d0 := n / 10, n % 10;
    assert d1 < 10 && NatToString(d1) == [DigitChar(d1)];
    assert NatToString(n) == [DigitChar(d1), DigitChar(d0)];
    assert n / 1000 == n / 100 % 10 == 0 && n / 10 % 10 == d1;
    assert seq(2, _ => '0') == [DigitChar(0), DigitChar(0)];
  }

  lemma PadThreeDigits(n: nat)
    requires 100 <= n < 1000
    ensures PadDecimal(n, 4) == FourDigits(n)
  {
    var d2, d1, d0 := n / 100, n / 10 % 10, n % 10;
    assert n / 10 / 10 == d2 < 10 && n / 10 >= 10;
    assert NatToString(d2) == [DigitChar(d2)];
    assert NatToString(n / 10) == [DigitChar(d2), DigitChar(d1)];
    assert NatToString(n) == [DigitChar(d2), DigitChar(d1), DigitChar(d0)];
    assert n / 1000 == 0 && n / 100 % 10 == d2;
    assert seq(1, _ => '0') == [DigitChar(0)];
  }

  lemma PadFourDigits(n: nat)
    requires 1000 <= n < 10000
    ensures PadDecimal(n, 4) == FourDigits(n)
  {
    var d3, d2, d1, d0 := n / 1000, n / 100 % 10, n / 10 % 10, n % 10;
    assert n / 10 / 10 == n / 100 && n / 100 / 10 == d3 < 10;
    assert n / 10 % 10 == d1 && n / 100 >= 10 && n / 10 >= 100;
    assert NatToString(d3) == [DigitChar(d3)];
    assert NatToString(n / 100) == [DigitChar(d3), DigitChar(d2)];
    assert NatToString(n / 10) == [DigitChar(d3), DigitChar(d2), DigitChar(d1)];
    assert NatToString(n) == [DigitChar(d3), DigitChar(d2), DigitChar(d1), DigitChar(d0)];
  }

  lemma DigitsOf(n: nat)
    requires n < 10000
    ensures n == 1000 * (n / 1000) + 100 * (n / 100 % 10) + 10 * (n / 10 % 10) + n % 10
    ensures n / 1000 < 10
  {
    var q1, q2 := n / 10, n / 100;
    assert n == 10 * q1 + n % 10;
    assert q1 == 10 * (q1 / 10) + q1 % 10;
    assert q1 / 10 == q2 && q1 % 10 == n / 10 % 10;
    assert q2 == 10 * (q2 / 10) + q2 % 10;
    assert q2 / 10 == n / 1000;
  }

  lemma DigitCharOrder(d: nat, e: nat)
    requires d < e < 10
    ensures DigitChar(d) < DigitChar(e)
  {
  }

  /** Four-digit indices sort as strings in the order of the numbers. */
  lemma FourDigitsOrder(a: nat, b: nat)
    requires a < b < 10000
    ensures OrdinalLess(FourDigits(a), FourDigits(b))
  {
    var x, y := FourDigits(a), FourDigits(b);
    var a3, a2, a1, a0 := a / 1000, a / 100 % 10, a / 10 % 10, a % 10;
    var b3, b2, b1, b0 := b / 1000, b / 100 % 10, b / 10 % 10, b % 10;
    DigitsOf(a);
    DigitsOf(b);
    assert x[1..][1..] == x[2..] && y[1..][1..] == y[2..];
    assert x[2..][1..] == x[3..] && y[2..][1..] == y[3..];
    if a3 != b3 {
      DigitCharOrder(a3, b3);
    } else if a2 != b2 {
      DigitCharOrder(a2, b2);
      assert x[1..][0] < y[1..][0];
    } else if a1 != b1 {
      DigitCharOrder(a1, b1);
      assert x[2..][0] < y[2..][0];
    } else {
      DigitCharOrder(a0, b0);
      assert x[3..][0] < y[3..][0];
      assert OrdinalLess(x[3..], y[3..]);
      assert OrdinalLess(x[2..], y[2..]);
      assert OrdinalLess(x[1..], y[1..]);
    }
  }

  /** Every sibling index on the path is below 10000, so each one is written with exactly four digits. */
  predicate ShortIndices(p: Path) {
    forall k :: 0 <= k < |p| ==> p[k] < 10000
  }

  lemma {:induction false} StepsOrder(q: Path, p: Path)
    requires PathBefore(q, p) && ShortIndices(q) && ShortIndices(p)
    ensures OrdinalLess(Steps(q), Steps(p))
    decreases |p|
  {
    if q != [] {
      var dq, dp := PadDecimal(q[0], 4), PadDecimal(p[0], 4);
      assert Steps(q) == "/" + (dq + Steps(q[1..]));
      assert Steps(p) == "/" + (dp + Steps(p[1..]));
      if q[0] < p[0] {
        PadFour(q[0]);
        PadFour(p[0]);
        FourDigitsOrder(q[0], p[0]);
        OrdinalLessExtend(dq, dp, Steps(q[1..]), Steps(p[1..]));
      } else {
        assert ShortIndices(q[1..]) && ShortIndices(p[1..]);
        StepsOrder(q[1..], p[1..]);
        assert dq == dp;
        OrdinalLessCommon(dq, Steps(q[1..]), Steps(p[1..]));
      }
      OrdinalLessCommon("/", dq + Steps(q[1..]), dp + Steps(p[1..]));
    }
  }

  /**
   * Below one root, and as long as no sibling index reaches 10000, sorting by hierarchy
   * path is the hierarchy's top-to-bottom (depth-first pre-order) order.
   */
  lemma HierarchyPathOrder(rootName: string, q: Path, p: Path)
    requires PathBefore(q, p) && ShortIndices(q) && ShortIndices(p)
    ensures OrdinalLess(HierarchyPath(rootName, q), HierarchyPath(rootName, p))
  {
    HierarchyPathSteps(rootName, q);
    HierarchyPathSteps(rootName, p);
    StepsOrder(q, p);
    OrdinalLessCommon(rootName, Steps(q), Steps(p));
  }

  /**
   * The sort key of a selected object: its hierarchy path. Objects under different
   * roots compare by root name, not by the roots' order in the scene. (A reference
   * outside the scene has no path; the renamer is never given one.)
   */
  function Key(roots: seq<Node>, o: ObjectRef): string {
    if o.root < |roots| then HierarchyPath(roots[o.root].name, o.path) else []
  }

  // ---------------------------------------------------------------------------
  // Sorting the selection

  /** The key selector of the rename's sort: an object's hierarchy path in the given scene. */
  function KeyOf(roots: seq<Node>): ObjectRef -> string {
    o => Key(roots, o)
  }

  /** Stable insertion: `x` goes after every element whose key does not sort after its own. */
  function Insert<T>(x: T, ys: seq<T>, key: T -> string): seq<T> {
    if ys == [] || OrdinalLess(key(x), key(ys[0])) then [x] + ys
    else [ys[0]] + Insert(x, ys[1..], key)
  }

  lemma {:induction false} InsertPermutes<T>(x: T, ys: seq<T>, key: T -> string)
    ensures multiset(Insert(x, ys, key)) == multiset(ys) + multiset{x}
    decreases |ys|
  {
    if ys != [] && !OrdinalLess(key(x), key(ys[0])) {
      assert ys == [ys[0]] + ys[1..];
      InsertPermutes(x, ys[1..], key);
    }
  }

  /** LINQ's `OrderBy`: the elements sorted on their keys, ties kept in their original order. */
  function OrderBy<T>(xs: seq<T>, key: T -> string): seq<T> {
    if xs == [] then [] else Insert(xs[|xs| - 1], OrderBy(xs[..|xs| - 1], key), key)
  }

  /** `OrderBy` rearranges its input: every element occurs as often as before. */
  lemma {:induction false} OrderByPermutes<T>(xs: seq<T>, key: T -> string)
    ensures multiset(OrderBy(xs, key)) == multiset(xs)
    decreases |xs|
  {
    if xs != [] {
      var front, last := xs[..|xs| - 1], xs[|xs| - 1];
      assert xs == front + [last];
      OrderByPermutes(front, key);
      InsertPermutes(last, OrderBy(front, key), key);
    }
  }

  /** No element's key sorts before an earlier element's key. */
  predicate SortedBy<T>(s: seq<T>, key: T -> string) {
    forall i, j :: 0 <= i < j < |s| ==> !OrdinalLess(key(s[j]), key(s[i]))
  }

  lemma {:induction false} InsertSorted<T>(x: T, ys: seq<T>, key: T -> string)
    requires SortedBy(ys, key)
    ensures SortedBy(Insert(x, ys, key), key)
    decreases |ys|
  {
    var kx := key(x);
    if ys == [] {
    } else if OrdinalLess(kx, key(ys[0])) {
      var r := [x] + ys;
      forall b | 0 < b < |r|
        ensures !OrdinalLess(key(r[b]), kx)
      {
        if OrdinalLess(key(r[b]), kx) {
          OrdinalLessTransitive(key(r[b]), kx, key(ys[0]));
          if b == 1 {
            OrdinalLessIrreflexive(key(ys[0]));
          }
          assert false;
        }
      }
    } else {
      InsertSorted(x, ys[1..], key);
      InsertPermutes(x, ys[1..], key);
      var rest := Insert(x, ys[1..], key);
      forall b | 0 <= b < |rest|
        ensures !OrdinalLess(key(rest[b]), key(ys[0]))
      {
        assert rest[b] in multiset(ys[1..]) + multiset{x};
        if rest[b] != x {
          var c :| 0 <= c < |ys[1..]| && ys[1..][c] == rest[b];
          assert ys[c + 1] == rest[b];
        }
      }
    }
  }

  /** The result of `OrderBy` is sorted on the key. */
  lemma {:induction false} OrderBySorted<T>(xs: seq<T>, key: T -> string)
    ensures SortedBy(OrderBy(xs, key), key)
    decreases |xs|
  {
    if xs != [] {
      OrderBySorted(xs[..|xs| - 1], key);
      InsertSorted(xs[|xs| - 1], OrderBy(xs[..|xs| - 1], key), key);
    }
  }

  /** The elements of `s` whose key is `k`, in their order in `s`. */
  function WithKey<T>(s: seq<T>, key: T -> string, k: string): seq<T> {
    if s == [] then []
    else (if key(s[0]) == k then [s[0]] else []) + WithKey(s[1..], key, k)
  }

  lemma {:induction false} WithKeyAppend<T>(s: seq<T>, x: T, key: T -> string, k: string)
    ensures WithKey(s + [x], key, k) == WithKey(s, key, k) + (if key(x) == k then [x] else [])
    decreases |s|
  {
    var tail: seq<T> := if key(x) == k then [x] else [];
    if s == [] {
      assert s + [x] == [x];
      assert WithKey([x], key, k) == tail + WithKey([], key, k);
    } else {
      var head: seq<T> := if key(s[0]) == k then [s[0]] else [];
      var s' := s + [x];
      assert s'[0] == s[0] && s'[1..] == s[1..] + [x];
      assert WithKey(s', key, k) == head + WithKey(s[1..] + [x], key, k);
      WithKeyAppend(s[1..], x, key, k);
      assert WithKey(s, key, k) == head + WithKey(s[1..], key, k);
    }
  }

  lemma {:induction false} WithKeyNone<T>(s: seq<T>, key: T -> string, k: string)
    requires forall i :: 0 <= i < |s| ==> key(s[i]) != k
    ensures WithKey(s, key, k) == []
    decreases |s|
  {
    if s != [] {
      WithKeyNone(s[1..], key, k);
    }
  }

  /** When `x` goes first, no element of the sorted `ys` shares its key. */
  lemma InsertFirstWithKey<T>(x: T, ys: seq<T>, key: T -> string, k: string)
    requires SortedBy(ys, key)
    requires ys != [] && OrdinalLess(key(x), key(ys[0]))
    ensures WithKey([x] + ys, key, k) == WithKey(ys, key, k) + (if key(x) == k then [x] else [])
  {
    var tail: seq<T> := if key(x) == k then [x] else [];
    assert ([x] + ys)[0] == x && ([x] + ys)[1..] == ys;
    assert WithKey([x] + ys, key, k) == tail + WithKey(ys, key, k);
    if key(x) == k {
      forall i | 0 <= i < |ys|
        ensures key(ys[i]) != k
      {
        if i == 0 {
          OrdinalLessIrreflexive(key(x));
        }
      }
      WithKeyNone(ys, key, k);
    }
  }

  lemma {:induction false} InsertWithKey<T>(x: T, ys: seq<T>, key: T -> string, k: string)
    requires SortedBy(ys, key)
    ensures WithKey(Insert(x, ys, key), key, k) == WithKey(ys, key, k) + (if key(x) == k then [x] else [])
    decreases |ys|
  {
    var tail: seq<T> := if key(x) == k then [x] else [];
    if ys == [] {
      assert Insert(x, ys, key) == [x];
      assert WithKey([x], key, k) == tail + WithKey([], key, k);
    } else if OrdinalLess(key(x), key(ys[0])) {
      assert Insert(x, ys, key) == [x] + ys;
      InsertFirstWithKey(x, ys, key, k);
    } else {
      var head: seq<T> := if key(ys[0]) == k then [ys[0]] else [];
      var rest := Insert(x, ys[1..], key);
      var r := [ys[0]] + rest;
      assert Insert(x, ys, key) == r;
      assert r[0] == ys[0] && r[1..] == rest;
      assert WithKey(r, key, k) == head + WithKey(rest, key, k);
      assert SortedBy(ys[1..], key);
      InsertWithKey(x, ys[1..], key, k);
      assert WithKey(ys, key, k) == head + WithKey(ys[1..], key, k);
    }
  }

  /**
   * `OrderBy` is stable: the elements sharing any one key come out in their original
   * order.
   */
  lemma {:induction false} OrderByStable<T>(xs: seq<T>, key: T -> string, k: string)
    ensures WithKey(OrderBy(xs, key), key, k) == WithKey(xs, key, k)
    decreases |xs|
  {
    if xs != [] {
      var front, last := xs[..|xs| - 1], xs[|xs| - 1];
      OrderByStable(front, key, k);
      OrderBySorted(front, key);
      InsertWithKey(last, OrderBy(front, key), key, k);
      assert xs == front + [last];
      WithKeyAppend(front, last, key, k);
    }
  }

  // ---------------------------------------------------------------------------
  // Renaming

  /** The name given to the object at position `n` of the numbering: `"{baseName} ({n})"`. */
  function NewName(baseName: string, n: int): string {
    baseName + " (" + IntToString(n) + ")"
  }

  /** Different numbers give different names. */
  lemma NewNamesDiffer(baseName: string, n: int, m: int)
    requires n != m
    ensures NewName(baseName, n) != NewName(baseName, m)
  {
    if NewName(baseName, n) == NewName(baseName, m) {
      Unframe(baseName + " (", IntToString(n), IntToString(m), ")");
      IntToStringInjective(n, m);
    }
  }

  /** Objects numbered one after the other end up with pairwise different names. */
  lemma NumberedNamesDiffer(roots: seq<Node>, order: seq<ObjectRef>, baseName: string, startIndex: int)
    requires forall i :: 0 <= i < |order| ==> ValidRef(roots, order[i])
    requires forall i :: 0 <= i < |order| ==> NameAt(roots, order[i]) == NewName(baseName, startIndex + i)
    ensures forall i, j :: 0 <= i < j < |order| ==> NameAt(roots, order[i]) != NameAt(roots, order[j])
  {
    forall i, j | 0 <= i < j < |order|
      ensures NameAt(roots, order[i]) != NameAt(roots, order[j])
    {
      NewNamesDiffer(baseName, startIndex + i, startIndex + j);
    }
  }

  /** One object renamed: only its own name changes, every path stays valid. */
  function RenameRef(roots: seq<Node>, o: ObjectRef, newName: string): (r: seq<Node>)
    requires ValidRef(roots, o)
    ensures |r| == |roots| && forall k :: 0 <= k < |r| ==> SameButNames(roots[k], r[k])
    ensures forall q :: ValidRef(r, q) <==> ValidRef(roots, q)
    ensures forall q :: ValidRef(roots, q) ==> NameAt(r, q) == if q == o then newName else NameAt(roots, q)
  {
    var tree := Renamed(roots[o.root], o.path, newName);
    var r := roots[o.root := tree];
    assert forall k :: 0 <= k < |r| ==> SameButNames(roots[k], r[k]) by {
      forall k | 0 <= k < |r|
        ensures SameButNames(roots[k], r[k])
      {
        if k == o.root {
          RenamedSameButNames(roots[k], o.path, newName);
        } else {
          SameButNamesRefl(roots[k]);
        }
      }
    }
    assert forall q :: ValidRef(r, q) <==> ValidRef(roots, q) by {
      forall q: ObjectRef | q.root == o.root
        ensures ValidPath(tree, q.path) <==> ValidPath(roots[o.root], q.path)
      {
        RenamedAt(roots[o.root], o.path, newName, q.path);
      }
    }
    assert forall q :: ValidRef(roots, q) ==> NameAt(r, q) == if q == o then newName else NameAt(roots, q) by {
      forall q | ValidRef(roots, q) && q.root == o.root
        ensures At(tree, q.path).name == if q.path == o.path then newName else At(roots[o.root], q.path).name
      {
        RenamedAt(roots[o.root], o.path, newName, q.path);
      }
    }
    r
  }

  /** The scene's roots, whose objects the rename changes in place. */
  class Hierarchy {
    var roots: seq<Node>

    constructor (roots: seq<Node>)
      ensures this.roots == roots
    {
      this.roots := roots;
    }

    /**
     * `RenameSelectedObjects`: nothing for an empty selection; otherwise the selection
     * is sorted on the hierarchy path and the i-th object of that order is named
     * `"{baseName} ({startIndex + i})"`. No other name and nothing else changes, and the
     * new names are pairwise different.
     */
    method RenameSelectedObjects(selection: seq<ObjectRef>, baseName: string, startIndex: int)
      returns (sorted: seq<ObjectRef>)
      requires forall o :: o in selection ==> ValidRef(roots, o)
      requires Distinct(selection)
      modifies this`roots
      ensures sorted == OrderBy(selection, KeyOf(old(roots)))
      ensures selection == [] ==> roots == old(roots)
      ensures |roots| == |old(roots)| && forall k :: 0 <= k < |roots| ==> SameButNames(old(roots)[k], roots[k])
      ensures forall o :: ValidRef(roots, o) <==> ValidRef(old(roots), o)
      ensures forall i :: 0 <= i < |sorted| ==>
                ValidRef(roots, sorted[i]) && NameAt(roots, sorted[i]) == NewName(baseName, startIndex + i)
      ensures forall o :: ValidRef(old(roots), o) && o !in selection ==> NameAt(roots, o) == NameAt(old(roots), o)
      ensures forall i, j :: 0 <= i < j < |sorted| ==> NameAt(roots, sorted[i]) != NameAt(roots, sorted[j])
    {
      sorted := OrderBy(selection, KeyOf(roots));
      OrderByPermutes(selection, KeyOf(roots));
      if |selection| == 0 {
        forall k | 0 <= k < |roots| {
          SameButNamesRefl(roots[k]);
        }
        return;
      }
      PermutationKeepsDistinct(selection, sorted);
      forall i | 0 <= i < |sorted|
        ensures ValidRef(roots, sorted[i])
      {
        assert sorted[i] in multiset(selection);
      }
      NameInOrder(sorted, baseName, startIndex);
      NumberedNamesDiffer(roots, sorted, baseName, startIndex);
      assert forall o :: o !in selection ==> o !in sorted by {
        forall o | o !in selection
          ensures o !in sorted
        {
          assert multiset(sorted)[o] == multiset(selection)[o];
        }
      }
    }

    /** The renaming loop: the i-th object of `order` is named `"{baseName} ({startIndex + i})"`. */
    method NameInOrder(order: seq<ObjectRef>, baseName: string, startIndex: int)
      requires Distinct(order) && forall i :: 0 <= i < |order| ==> ValidRef(roots, order[i])
      modifies this`roots
      ensures |roots| == |old(roots)| && forall k :: 0 <= k < |roots| ==> SameButNames(old(roots)[k], roots[k])
      ensures forall o :: ValidRef(roots, o) <==> ValidRef(old(roots), o)
      ensures forall i :: 0 <= i < |order| ==> NameAt(roots, order[i]) == NewName(baseName, startIndex + i)
      ensures forall o :: ValidRef(old(roots), o) && o !in order ==> NameAt(roots, o) == NameAt(old(roots), o)
    {
      forall k | 0 <= k < |roots| {
        SameButNamesRefl(roots[k]);
      }
      for i := 0 to |order|
        invariant |roots| == |old(roots)| && forall k :: 0 <= k < |roots| ==> SameButNames(old(roots)[k], roots[k])
        invariant forall o :: ValidRef(roots, o) <==> ValidRef(old(roots), o)
        invariant forall k :: 0 <= k < i ==> NameAt(roots, order[k]) == NewName(baseName, startIndex + k)
        invariant forall o :: ValidRef(old(roots), o) && o !in order[..i] ==> NameAt(roots, o) == NameAt(old(roots), o)
      {
        var o := order[i];
        ghost var before := roots;
        roots := RenameRef(roots, o, NewName(baseName, startIndex + i));
        forall k | 0 <= k < |roots|
          ensures SameButNames(old(roots)[k], roots[k])
        {
          SameButNamesTrans(old(roots)[k], before[k], roots[k]);
        }
        forall k | 0 <= k < i + 1
          ensures NameAt(roots, order[k]) == NewName(baseName, startIndex + k)
        {
          if k < i {
            assert order[k] != o;
            assert NameAt(roots, order[k]) == NameAt(before, order[k]);
          }
        }
        forall q | ValidRef(old(roots), q) && q !in order[..i + 1]
          ensures NameAt(roots, q) == NameAt(old(roots), q)
        {
          assert q !in order[..i];
          assert q != o;
        }
      }
      assert order[..|order|] == order;
    }
  }
}
