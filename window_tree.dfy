/**
 * The window tree of a window-server client: a root window whose children are window
 * groups and other windows, searched in pre-order (find_window_obj), filled in with a
 * screen device (init_device) and grown by window groups (create_window_group).
 *
 * The tree is a value: a child list is a sequence and a node's parent is the node
 * whose list holds it.
 */
module WindowTree {
  import opened Opt

  /** What kind of window a node is; a group draws on a screen device, named by its id, or on none. */
  datatype WindowKind = Ordinary | Group(device: Option<nat>)

  datatype Window = Window(id: nat, kind: WindowKind, children: seq<Window>)

  /** Every node of w in pre-order: w first, then each child's subtree in turn. */
  function PreOrder(w: Window): (r: seq<Window>)
    ensures |r| >= 1 && r[0] == w
    decreases w, 1
  {
    [w] + PreOrderAll(w.children)
  }

  function PreOrderAll(cs: seq<Window>): seq<Window>
    decreases cs, 0
  {
    if cs == [] then [] else PreOrder(cs[0]) + PreOrderAll(cs[1..])
  }

  /** The first window of ws whose id is id. */
  function FirstWithId(ws: seq<Window>, id: nat): (r: Option<Window>)
    ensures r.None? <==> forall i :: 0 <= i < |ws| ==> ws[i].id != id
    ensures r.Some? ==> exists i :: 0 <= i < |ws| && ws[i] == r.value && r.value.id == id
                                    && forall j :: 0 <= j < i ==> ws[j].id != id
  {
    if ws == [] then None
    else if ws[0].id == id then Some(ws[0])
    else
      var r := FirstWithId(ws[1..], id);
      assert forall j :: 1 <= j < |ws| ==> ws[j] == ws[1..][j - 1];
      r
  }

  /** find_window_obj: the node of w with the given id, searched root first, then child by child. */
  function Find(w: Window, id: nat): (r: Option<Window>)
    ensures r.Some? ==> r.value.id == id
    decreases w, 1
  {
    if w.id == id then Some(w) else FindAll(w.children, id)
  }

  function FindAll(cs: seq<Window>, id: nat): (r: Option<Window>)
    ensures r.Some? ==> r.value.id == id
    decreases cs, 0
  {
    if cs == [] then None
    else
      match Find(cs[0], id)
      case Some(found) => Some(found)
      case None => FindAll(cs[1..], id)
  }

  lemma {:induction false} FirstWithIdAppend(a: seq<Window>, b: seq<Window>, id: nat)
    ensures FirstWithId(a + b, id) == if FirstWithId(a, id).Some? then FirstWithId(a, id) else FirstWithId(b, id)
  {
    if a != [] {
      assert (a + b)[1..] == a[1..] + b;
      FirstWithIdAppend(a[1..], b, id);
    } else {
      assert a + b == b;
    }
  }

  /**
   * find_window_obj gives the first node in pre-order whose id is the one asked for,
   * and nothing exactly when no node of the tree has that id.
   */
  lemma {:induction false} FindIsFirstInPreOrder(w: Window, id: nat)
    ensures Find(w, id) == FirstWithId(PreOrder(w), id)
    ensures Find(w, id).None? <==> forall i :: 0 <= i < |PreOrder(w)| ==> PreOrder(w)[i].id != id
    decreases w, 1
  {
    FirstWithIdAppend([w], PreOrderAll(w.children), id);
    FindAllIsFirstInPreOrder(w.children, id);
  }

  lemma {:induction false} FindAllIsFirstInPreOrder(cs: seq<Window>, id: nat)
    ensures FindAll(cs, id) == FirstWithId(PreOrderAll(cs), id)
    decreases cs, 0
  {
    if cs != [] {
      FindIsFirstInPreOrder(cs[0], id);
      FindAllIsFirstInPreOrder(cs[1..], id);
      FirstWithIdAppend(PreOrder(cs[0]), PreOrderAll(cs[1..]), id);
    }
  }

  // ---------------------------------------------------------------------------
  // init_device

  /** A group that has no device gets d; every other window keeps its kind. */
  function Fill(k: WindowKind, d: Option<nat>): WindowKind
  {
    if k == Group(None) then Group(d) else k
  }

  /** init_device: the tree with d given to every group that has no device. */
  function WithDevice(w: Window, d: Option<nat>): Window
    decreases w, 1
  {
    Window(w.id, Fill(w.kind, d), WithDeviceAll(w.children, d))
  }

  function WithDeviceAll(cs: seq<Window>, d: Option<nat>): (r: seq<Window>)
    ensures |r| == |cs|
    decreases cs, 0
  {
    if cs == [] then [] else [WithDevice(cs[0], d)] + WithDeviceAll(cs[1..], d)
  }

  /** b is a, node by node in pre-order, with d filled in: same ids, same number of children. */
  predicate FilledFrom(a: seq<Window>, b: seq<Window>, d: Option<nat>)
  {
    && |a| == |b|
    && forall i :: 0 <= i < |a| ==>
         b[i].id == a[i].id && b[i].kind == Fill(a[i].kind, d) && |b[i].children| == |a[i].children|
  }

  lemma FilledFromAppend(a1: seq<Window>, b1: seq<Window>, a2: seq<Window>, b2: seq<Window>, d: Option<nat>)
    requires FilledFrom(a1, b1, d) && FilledFrom(a2, b2, d)
    ensures FilledFrom(a1 + a2, b1 + b2, d)
  {
    forall i | 0 <= i < |a1| + |a2|
      ensures (b1 + b2)[i].id == (a1 + a2)[i].id && (b1 + b2)[i].kind == Fill((a1 + a2)[i].kind, d)
              && |(b1 + b2)[i].children| == |(a1 + a2)[i].children|
    {
      if i >= |a1| {
        assert (a1 + a2)[i] == a2[i - |a1|] && (b1 + b2)[i] == b2[i - |a1|];
      }
    }
  }

  /**
   * After init_device every group that had no device holds d, groups that had one and
   * all other windows are unchanged, and the shape of the tree is the same: node by
   * node in pre-order, the same ids and the same numbers of children.
   */
  lemma {:induction false} WithDeviceNodes(w: Window, d: Option<nat>)
    ensures FilledFrom(PreOrder(w), PreOrder(WithDevice(w, d)), d)
    decreases w, 1
  {
    WithDeviceAllNodes(w.children, d);
    FilledFromAppend([w], [WithDevice(w, d)], PreOrderAll(w.children), PreOrderAll(WithDeviceAll(w.children, d)), d);
  }

  lemma {:induction false} WithDeviceAllNodes(cs: seq<Window>, d: Option<nat>)
    ensures FilledFrom(PreOrderAll(cs), PreOrderAll(WithDeviceAll(cs, d)), d)
    decreases cs, 0
  {
    if cs != [] {
      var r := WithDeviceAll(cs, d);
      assert r[0] == WithDevice(cs[0], d) && r[1..] == WithDeviceAll(cs[1..], d);
      WithDeviceNodes(cs[0], d);
      WithDeviceAllNodes(cs[1..], d);
      FilledFromAppend(PreOrder(cs[0]), PreOrder(r[0]), PreOrderAll(cs[1..]), PreOrderAll(r[1..]), d);
    }
  }

  /** With a device to give, no group is left without one after init_device. */
  lemma NoGroupWithoutDevice(w: Window, d: nat)
    ensures forall i :: 0 <= i < |PreOrder(WithDevice(w, Some(d)))| ==>
              PreOrder(WithDevice(w, Some(d)))[i].kind != Group(None)
  {
    WithDeviceNodes(w, Some(d));
  }

  /** Running init_device twice with the same device is the same as running it once. */
  lemma {:induction false} WithDeviceIdempotent(w: Window, d: Option<nat>)
    ensures WithDevice(WithDevice(w, d), d) == WithDevice(w, d)
    decreases w, 1
  {
    WithDeviceAllIdempotent(w.children, d);
  }

  lemma {:induction false} WithDeviceAllIdempotent(cs: seq<Window>, d: Option<nat>)
    ensures WithDeviceAll(WithDeviceAll(cs, d), d) == WithDeviceAll(cs, d)
    decreases cs, 0
  {
    if cs != [] {
      var r := WithDeviceAll(cs, d);
      assert r[0] == WithDevice(cs[0], d) && r[1..] == WithDeviceAll(cs[1..], d);
      WithDeviceIdempotent(cs[0], d);
      WithDeviceAllIdempotent(cs[1..], d);
    }
  }

  // ---------------------------------------------------------------------------
  // create_window_group: attaching a new group under its parent

  /** w with g appended to its children. */
  function Grown(w: Window, g: Window): Window
  {
    w.(children := w.children + [g])
  }

  /** g appended to the children of the first node, in pre-order, whose id is parent. */
  function AppendUnder(w: Window, parent: nat, g: Window): Window
    decreases w, 1
  {
    if w.id == parent then Grown(w, g)
    else w.(children := AppendUnderAll(w.children, parent, g))
  }

  function AppendUnderAll(cs: seq<Window>, parent: nat, g: Window): (r: seq<Window>)
    ensures |r| == |cs|
    decreases cs, 0
  {
    if cs == [] then []
    else if Find(cs[0], parent).Some? then [AppendUnder(cs[0], parent, g)] + cs[1..]
    else [cs[0]] + AppendUnderAll(cs[1..], parent, g)
  }

  /** create_window_group: g goes under the node with id parent, or under the root when there is none. */
  function Attach(root: Window, parent: nat, g: Window): Window
  {
    if Find(root, parent).Some? then AppendUnder(root, parent, g)
    else Grown(root, g)
  }

  /**
   * Attaching g under an existing parent: the parent is still the node found for its
   * id, and its children are the old ones followed by g.
   */
  lemma {:induction false} AppendUnderFindsParent(w: Window, parent: nat, g: Window)
    requires Find(w, parent).Some?
    ensures var p := Find(w, parent).value;
            Find(AppendUnder(w, parent, g), parent) == Some(Grown(p, g))
    decreases w, 1
  {
    if w.id != parent {
      AppendUnderAllFindsParent(w.children, parent, g);
    }
  }

  lemma {:induction false} AppendUnderAllFindsParent(cs: seq<Window>, parent: nat, g: Window)
    requires FindAll(cs, parent).Some?
    ensures var p := FindAll(cs, parent).value;
            FindAll(AppendUnderAll(cs, parent, g), parent) == Some(Grown(p, g))
    decreases cs, 0
  {
    var r := AppendUnderAll(cs, parent, g);
    if Find(cs[0], parent).Some? {
      assert r[0] == AppendUnder(cs[0], parent, g);
      AppendUnderFindsParent(cs[0], parent, g);
    } else {
      assert r[0] == cs[0] && r[1..] == AppendUnderAll(cs[1..], parent, g);
      AppendUnderAllFindsParent(cs[1..], parent, g);
    }
  }

  /** The ids of every node of w, with their multiplicities. */
  function Ids(w: Window): multiset<nat>
    decreases w, 1
  {
    multiset{w.id} + IdsAll(w.children)
  }

  function IdsAll(cs: seq<Window>): multiset<nat>
    decreases cs, 0
  {
    if cs == [] then multiset{} else Ids(cs[0]) + IdsAll(cs[1..])
  }

  lemma {:induction false} IdsAllAppend(a: seq<Window>, b: seq<Window>)
    ensures IdsAll(a + b) == IdsAll(a) + IdsAll(b)
  {
    if a != [] {
      assert (a + b)[0] == a[0] && (a + b)[1..] == a[1..] + b;
      IdsAllAppend(a[1..], b);
    } else {
      assert a + b == b;
    }
  }

  lemma {:induction false} AppendUnderIds(w: Window, parent: nat, g: Window)
    requires Find(w, parent).Some?
    ensures Ids(AppendUnder(w, parent, g)) == Ids(w) + Ids(g)
    decreases w, 1
  {
    if w.id == parent {
      IdsAllAppend(w.children, [g]);
      assert IdsAll([g]) == Ids(g) by {
        assert [g][1..] == [];
      }
    } else {
      AppendUnderAllIds(w.children, parent, g);
    }
  }

  lemma {:induction false} AppendUnderAllIds(cs: seq<Window>, parent: nat, g: Window)
    requires FindAll(cs, parent).Some?
    ensures IdsAll(AppendUnderAll(cs, parent, g)) == IdsAll(cs) + Ids(g)
    decreases cs, 0
  {
    var r := AppendUnderAll(cs, parent, g);
    if Find(cs[0], parent).Some? {
      assert r[0] == AppendUnder(cs[0], parent, g) && r[1..] == cs[1..];
      AppendUnderIds(cs[0], parent, g);
    } else {
      assert r[0] == cs[0] && r[1..] == AppendUnderAll(cs[1..], parent, g);
      AppendUnderAllIds(cs[1..], parent, g);
    }
  }

  /** What a node says about itself: its id, its kind and how many children it has. */
  type Label = (nat, WindowKind, nat)

  function LabelOf(w: Window): Label
  {
    (w.id, w.kind, |w.children|)
  }

  /** The labels of every node of w in pre-order, as PreOrder lists the nodes. */
  function Labels(w: Window): (r: seq<Label>)
    ensures |r| >= 1 && r[0] == LabelOf(w)
    decreases w, 1
  {
    [LabelOf(w)] + LabelsAll(w.children)
  }

  function LabelsAll(cs: seq<Window>): seq<Label>
    decreases cs, 0
  {
    if cs == [] then [] else Labels(cs[0]) + LabelsAll(cs[1..])
  }

  /** ls lists, position by position, the labels of the nodes ws. */
  predicate LabelsOf(ws: seq<Window>, ls: seq<Label>)
  {
    |ws| == |ls| && forall k :: 0 <= k < |ws| ==> ls[k] == LabelOf(ws[k])
  }

  lemma LabelsOfAppend(w1: seq<Window>, l1: seq<Label>, w2: seq<Window>, l2: seq<Label>)
    requires LabelsOf(w1, l1) && LabelsOf(w2, l2)
    ensures LabelsOf(w1 + w2, l1 + l2)
  {
    forall k | 0 <= k < |w1| + |w2|
      ensures (l1 + l2)[k] == LabelOf((w1 + w2)[k])
    {
      if k >= |w1| {
        assert (l1 + l2)[k] == l2[k - |w1|] && (w1 + w2)[k] == w2[k - |w1|];
      }
    }
  }

  /** Labels(w) is PreOrder(w) with each node reduced to its label. */
  lemma {:induction false} LabelsArePreOrder(w: Window)
    ensures LabelsOf(PreOrder(w), Labels(w))
    decreases w, 1
  {
    LabelsAllArePreOrderAll(w.children);
    LabelsOfAppend([w], [LabelOf(w)], PreOrderAll(w.children), LabelsAll(w.children));
  }

  lemma {:induction false} LabelsAllArePreOrderAll(cs: seq<Window>)
    ensures LabelsOf(PreOrderAll(cs), LabelsAll(cs))
    decreases cs, 0
  {
    if cs != [] {
      LabelsArePreOrder(cs[0]);
      LabelsAllArePreOrderAll(cs[1..]);
      LabelsOfAppend(PreOrder(cs[0]), Labels(cs[0]), PreOrderAll(cs[1..]), LabelsAll(cs[1..]));
    }
  }

  /**
   * The labels determine the tree: read in pre-order, each node's child count says
   * where its subtree ends, so two trees with the same labels are the same tree
   * (whatever follows them).
   */
  lemma {:induction false} LabelsPrefixDetermine(a: Window, b: Window, s: seq<Label>, t: seq<Label>)
    requires Labels(a) + s == Labels(b) + t
    ensures a == b && s == t
    decreases a, 1
  {
    var la := LabelsAll(a.children);
    var lb := LabelsAll(b.children);
    assert Labels(a) + s == [LabelOf(a)] + (la + s);
    assert Labels(b) + t == [LabelOf(b)] + (lb + t);
    assert LabelOf(a) == (Labels(a) + s)[0] == (Labels(b) + t)[0] == LabelOf(b);
    assert la + s == (Labels(a) + s)[1..] == (Labels(b) + t)[1..] == lb + t;
    LabelsAllPrefixDetermine(a.children, b.children, s, t);
  }

  lemma {:induction false} LabelsAllPrefixDetermine(xs: seq<Window>, ys: seq<Window>, s: seq<Label>, t: seq<Label>)
    requires |xs| == |ys|
    requires LabelsAll(xs) + s == LabelsAll(ys) + t
    ensures xs == ys && s == t
    decreases xs, 0
  {
    if xs != [] {
      var ra := LabelsAll(xs[1..]) + s;
      var rb := LabelsAll(ys[1..]) + t;
      assert Labels(xs[0]) + ra == LabelsAll(xs) + s;
      assert Labels(ys[0]) + rb == LabelsAll(ys) + t;
      LabelsPrefixDetermine(xs[0], ys[0], ra, rb);
      LabelsAllPrefixDetermine(xs[1..], ys[1..], s, t);
      assert xs == [xs[0]] + xs[1..] && ys == [ys[0]] + ys[1..];
    } else {
      assert LabelsAll(xs) + s == s && LabelsAll(ys) + t == t;
    }
  }

  /** Two trees with the same pre-order labels are equal. */
  lemma LabelsDetermineTree(a: Window, b: Window)
    requires Labels(a) == Labels(b)
    ensures a == b
  {
    assert Labels(a) + [] == Labels(b) + [];
    LabelsPrefixDetermine(a, b, [], []);
  }

  /** The position of the first label with the given id, or |ls| when there is none. */
  function FirstIndexOf(ls: seq<Label>, id: nat): (i: nat)
    ensures i <= |ls|
    ensures i < |ls| ==> ls[i].0 == id
  {
    if ls == [] then 0
    else if ls[0].0 == id then 0
    else 1 + FirstIndexOf(ls[1..], id)
  }

  lemma {:induction false} FirstIndexOfAppend(a: seq<Label>, b: seq<Label>, id: nat)
    ensures FirstIndexOf(a + b, id) == if FirstIndexOf(a, id) < |a| then FirstIndexOf(a, id) else |a| + FirstIndexOf(b, id)
  {
    if a != [] {
      assert (a + b)[0] == a[0] && (a + b)[1..] == a[1..] + b;
      FirstIndexOfAppend(a[1..], b, id);
    } else {
      assert a + b == b;
    }
  }

  /** A node with the id exists exactly when some pre-order label carries it. */
  lemma {:induction false} FindLabels(w: Window, id: nat)
    ensures Find(w, id).Some? <==> FirstIndexOf(Labels(w), id) < |Labels(w)|
    decreases w, 1
  {
    if w.id != id {
      FindAllLabels(w.children, id);
      FirstIndexOfAppend([LabelOf(w)], LabelsAll(w.children), id);
    }
  }

  lemma {:induction false} FindAllLabels(cs: seq<Window>, id: nat)
    ensures FindAll(cs, id).Some? <==> FirstIndexOf(LabelsAll(cs), id) < |LabelsAll(cs)|
    decreases cs, 0
  {
    if cs != [] {
      FindLabels(cs[0], id);
      FindAllLabels(cs[1..], id);
      FirstIndexOfAppend(Labels(cs[0]), LabelsAll(cs[1..]), id);
    }
  }

  /** x with y inserted at position e. */
  function InsertAt(x: seq<Label>, e: nat, y: seq<Label>): seq<Label>
    requires e <= |x|
  {
    x[..e] + y + x[e..]
  }

  /** x with the label at i replaced by v and then y inserted at e. */
  function Edit(x: seq<Label>, i: nat, v: Label, e: nat, y: seq<Label>): seq<Label>
    requires i < |x| && e <= |x|
  {
    InsertAt(x[i := v], e, y)
  }

  lemma EditAfterPrefix(h: seq<Label>, x: seq<Label>, i: nat, v: Label, e: nat, y: seq<Label>)
    requires i < |x| && e <= |x|
    ensures h + Edit(x, i, v, e, y) == Edit(h + x, |h| + i, v, |h| + e, y)
  {
    var x' := x[i := v];
    assert (h + x)[|h| + i := v] == h + x';
    assert (h + x')[..|h| + e] == h + x'[..e];
    assert (h + x')[|h| + e..] == x'[e..];
  }

  lemma EditBeforeSuffix(x: seq<Label>, i: nat, v: Label, e: nat, y: seq<Label>, t: seq<Label>)
    requires i < |x| && e <= |x|
    ensures Edit(x, i, v, e, y) + t == Edit(x + t, i, v, e, y)
  {
    var x' := x[i := v];
    assert (x + t)[i := v] == x' + t;
    assert (x' + t)[..e] == x'[..e];
    assert (x' + t)[e..] == x'[e..] + t;
  }

  /**
   * y is x after attaching g under p, the first node of x with id parent: the label
   * of p (at i) gets one more child, and g's labels go right after p's subtree (at e).
   */
  predicate EditedBy(x: seq<Label>, y: seq<Label>, parent: nat, p: Window, g: Window)
  {
    var i := FirstIndexOf(x, parent);
    var e := i + |Labels(p)|;
    && i < e <= |x|
    && y == Edit(x, i, LabelOf(Grown(p, g)), e, Labels(g))
  }

  /** Labels without the parent id in front of an edited sequence leave the edit as it is. */
  lemma EditedAfterPrefix(h: seq<Label>, x: seq<Label>, y: seq<Label>, parent: nat, p: Window, g: Window)
    requires FirstIndexOf(h, parent) == |h|
    requires EditedBy(x, y, parent, p, g)
    ensures EditedBy(h + x, h + y, parent, p, g)
  {
    FirstIndexOfAppend(h, x, parent);
    var i := FirstIndexOf(x, parent);
    EditAfterPrefix(h, x, i, LabelOf(Grown(p, g)), i + |Labels(p)|, Labels(g));
  }

  /** Labels after an edited sequence leave the edit as it is. */
  lemma EditedBeforeSuffix(x: seq<Label>, y: seq<Label>, t: seq<Label>, parent: nat, p: Window, g: Window)
    requires EditedBy(x, y, parent, p, g)
    ensures EditedBy(x + t, y + t, parent, p, g)
  {
    FirstIndexOfAppend(x, t, parent);
    var i := FirstIndexOf(x, parent);
    EditBeforeSuffix(x, i, LabelOf(Grown(p, g)), i + |Labels(p)|, Labels(g), t);
  }

  /** g appended to w's own children: w's child count goes up by one and g's labels follow w's subtree. */
  lemma {:induction false} AppendHereLabels(w: Window, g: Window)
    ensures EditedBy(Labels(w), Labels(Grown(w, g)), w.id, w, g)
  {
    var w' := Grown(w, g);
    var x := LabelsAll(w.children);
    assert LabelsAll(w.children + [g]) == x + Labels(g) by {
      LabelsAllAppend(w.children, [g]);
      assert [g][1..] == [];
      assert LabelsAll([g]) == Labels(g) + LabelsAll([]);
    }
    assert Labels(w') == [LabelOf(w')] + x + Labels(g);
    var x0 := Labels(w)[0 := LabelOf(w')];
    assert x0 == [LabelOf(w')] + x;
    assert Edit(Labels(w), 0, LabelOf(w'), |Labels(w)|, Labels(g)) == x0 + Labels(g) by {
      assert x0[..|x0|] == x0 && x0[|x0|..] == [];
    }
    assert FirstIndexOf(Labels(w), w.id) == 0;
  }

  /**
   * Attaching g under the first node with id parent changes no other node: in
   * pre-order, the parent's child count goes up by one, the labels of g are inserted
   * right after the parent's subtree, and every other label keeps its place.
   */
  lemma {:induction false} AppendUnderLabels(w: Window, parent: nat, g: Window)
    requires Find(w, parent).Some?
    ensures EditedBy(Labels(w), Labels(AppendUnder(w, parent, g)), parent, Find(w, parent).value, g)
    decreases w, 1
  {
    if w.id == parent {
      AppendHereLabels(w, g);
    } else {
      var cs := w.children;
      var head := [LabelOf(w)];
      AppendUnderAllLabels(cs, parent, g);
      assert FirstIndexOf(head, parent) == 1 by {
        assert head[1..] == [];
      }
      EditedAfterPrefix(head, LabelsAll(cs), LabelsAll(AppendUnderAll(cs, parent, g)), parent, FindAll(cs, parent).value, g);
      assert Labels(w) == head + LabelsAll(cs);
      assert Labels(AppendUnder(w, parent, g)) == head + LabelsAll(AppendUnderAll(cs, parent, g));
    }
  }

  lemma {:induction false} AppendUnderAllLabels(cs: seq<Window>, parent: nat, g: Window)
    requires FindAll(cs, parent).Some?
    ensures EditedBy(LabelsAll(cs), LabelsAll(AppendUnderAll(cs, parent, g)), parent, FindAll(cs, parent).value, g)
    decreases cs, 0
  {
    var r := AppendUnderAll(cs, parent, g);
    var a := Labels(cs[0]);
    var b := LabelsAll(cs[1..]);
    assert LabelsAll(cs) == a + b;
    if Find(cs[0], parent).Some? {
      assert r[0] == AppendUnder(cs[0], parent, g) && r[1..] == cs[1..];
      assert LabelsAll(r) == Labels(r[0]) + b;
      AppendUnderLabels(cs[0], parent, g);
      EditedBeforeSuffix(a, Labels(r[0]), b, parent, Find(cs[0], parent).value, g);
    } else {
      FindLabels(cs[0], parent);
      assert r[0] == cs[0] && r[1..] == AppendUnderAll(cs[1..], parent, g);
      assert LabelsAll(r) == a + LabelsAll(r[1..]);
      AppendUnderAllLabels(cs[1..], parent, g);
      EditedAfterPrefix(a, b, LabelsAll(r[1..]), parent, FindAll(cs[1..], parent).value, g);
    }
  }

  lemma {:induction false} LabelsAllAppend(a: seq<Window>, b: seq<Window>)
    ensures LabelsAll(a + b) == LabelsAll(a) + LabelsAll(b)
  {
    if a != [] {
      assert (a + b)[0] == a[0] && (a + b)[1..] == a[1..] + b;
      LabelsAllAppend(a[1..], b);
    } else {
      assert a + b == b;
    }
  }

  /**
   * create_window_group's attachment: the new group becomes the last child of the
   * first node, in pre-order, whose id is parent, or of the root when no node has that
   * id; the root stays the root and the tree gains exactly the nodes of g. No other
   * node changes: in pre-order, the parent's child count goes up by one, g's labels
   * are inserted right after the parent's subtree and every other node keeps its id,
   * kind, child count and place. Since labels determine the tree (LabelsDetermineTree),
   * this fixes the whole result.
   */
  lemma AttachPlacesGroup(root: Window, parent: nat, g: Window)
    ensures var r := Attach(root, parent, g);
            && r.id == root.id
            && Ids(r) == Ids(root) + Ids(g)
            && (Find(root, parent).Some? ==>
                  var p := Find(root, parent).value;
                  && Find(r, parent) == Some(Grown(p, g))
                  && EditedBy(Labels(root), Labels(r), parent, p, g))
            && (Find(root, parent).None? ==> r == Grown(root, g))
  {
    if Find(root, parent).Some? {
      AppendUnderFindsParent(root, parent, g);
      AppendUnderIds(root, parent, g);
      AppendUnderLabels(root, parent, g);
    } else {
      IdsAllAppend(root.children, [g]);
      assert IdsAll([g]) == Ids(g) by {
        assert [g][1..] == [];
      }
    }
  }

  /**
   * The frame is complete: a tree whose labels are edited from root's as attaching g
   * under parent prescribes is exactly the tree create_window_group builds.
   */
  lemma AttachFrameIsComplete(root: Window, parent: nat, g: Window, r: Window)
    requires Find(root, parent).Some?
    requires EditedBy(Labels(root), Labels(r), parent, Find(root, parent).value, g)
    ensures r == Attach(root, parent, g)
  {
    AttachPlacesGroup(root, parent, g);
    LabelsDetermineTree(r, Attach(root, parent, g));
  }
}
