/** Pre-order node indexing and node-name decoration. Export gives the k-th
    node of a depth-first pre-order walk the name `n{k:000}_{name}` in one
    pass and reads that name back by the same index in a second pass; import
    numbers scene nodes in the same order and strips the decoration again. */
module NodeIndex {
  import opened Wrappers

  /** A node of either scene graph: its name and its ordered children. */
  datatype Node = Node(name: string, children: seq<Node>)

  /** Depth-first pre-order: the node, then each child's subtree in turn. */
  function PreOrder(n: Node): (r: seq<Node>)
    decreases n, 1
    ensures |r| >= 1 && r[0] == n
  {
    [n] + Forest(n.children)
  }

  /** Pre-order of a sequence of sibling subtrees, left to right. */
  function Forest(ns: seq<Node>): seq<Node>
    decreases ns, 0
  {
    if ns == [] then [] else PreOrder(ns[0]) + Forest(ns[1..])
  }

  lemma {:induction false} ForestAppend(ns: seq<Node>, m: Node)
    ensures Forest(ns + [m]) == Forest(ns) + PreOrder(m)
  {
    if ns == [] {
      assert ns + [m] == [m];
      assert Forest([m][1..]) == [];
    } else {
      assert (ns + [m])[0] == ns[0];
      assert (ns + [m])[1..] == ns[1..] + [m];
      ForestAppend(ns[1..], m);
    }
  }

  // ---------------------------------------------------------------------------
  // Name decoration

  function DigitChar(d: int): char
    requires 0 <= d < 10
  {
    (48 + d) as char
  }

  predicate IsDigit(c: char) {
    '0' <= c <= '9'
  }

  /** Decimal digits of `i`, most significant first, without leading zeros. */
  function Digits(i: nat): string
  {
    if i < 10 then [DigitChar(i)] else Digits(i / 10) + [DigitChar(i % 10)]
  }

  function Zeros(n: nat): string
  {
    if n == 0 then "" else "0" + Zeros(n - 1)
  }

  /** The format `{i:000}`: at least three digits, padded with zeros. */
  function FormatIndex(i: nat): string
  {
    var d := Digits(i);
    if |d| < 3 then Zeros(3 - |d|) + d else d
  }

  /** The name given to the node with pre-order index `i`. */
  function NodeName(i: nat, name: string): string
  {
    "n" + FormatIndex(i) + "_" + name
  }

  /** The regular expression `^n[0-9]{3}_`. */
  predicate HasIndexPrefix(s: string) {
    |s| >= 5 && s[0] == 'n' && IsDigit(s[1]) && IsDigit(s[2]) && IsDigit(s[3]) && s[4] == '_'
  }

  /** Import drops the five decoration characters when the prefix matches
      and keeps the name as it is otherwise. */
  function StripNodePrefix(s: string): (r: string)
    ensures HasIndexPrefix(s) ==> r == s[5..] && s == s[..5] + r
    ensures !HasIndexPrefix(s) ==> r == s
  {
    if HasIndexPrefix(s) then s[5..] else s
  }

  lemma {:induction false} DigitsShape(i: nat)
    ensures 1 <= |Digits(i)|
    ensures forall k :: 0 <= k < |Digits(i)| ==> IsDigit(Digits(i)[k])
    ensures i < 10 <==> |Digits(i)| == 1
    ensures i < 100 <==> |Digits(i)| <= 2
    ensures i < 1000 <==> |Digits(i)| <= 3
  {
    if i >= 10 {
      DigitsShape(i / 10);
      var d := Digits(i);
      assert d == Digits(i / 10) + [DigitChar(i % 10)];
      forall k | 0 <= k < |d| ensures IsDigit(d[k]) {
        if k < |Digits(i / 10)| { assert d[k] == Digits(i / 10)[k]; }
      }
    }
  }

  lemma {:induction false} ZerosAreDigits(n: nat)
    ensures |Zeros(n)| == n && forall k :: 0 <= k < n ==> Zeros(n)[k] == '0'
  {
    if n > 0 {
      ZerosAreDigits(n - 1);
      assert Zeros(n) == "0" + Zeros(n - 1);
    }
  }

  /** `{i:000}` is exactly three digits up to 999 and longer from 1000 on. */
  lemma FormatIndexShape(i: nat)
    ensures forall k :: 0 <= k < |FormatIndex(i)| ==> IsDigit(FormatIndex(i)[k])
    ensures i <= 999 ==> |FormatIndex(i)| == 3
    ensures i > 999 ==> |FormatIndex(i)| > 3
  {
    DigitsShape(i);
    var d := Digits(i);
    if |d| < 3 {
      ZerosAreDigits(3 - |d|);
      var f := Zeros(3 - |d|) + d;
      forall k | 0 <= k < |f| ensures IsDigit(f[k]) {
        if k < 3 - |d| { assert f[k] == Zeros(3 - |d|)[k]; } else { assert f[k] == d[k - (3 - |d|)]; }
      }
    }
  }

  /** Decorating with an index up to 999 and stripping gives the name back. */
  lemma StripUndoesNodeName(i: nat, name: string)
    requires i <= 999
    ensures StripNodePrefix(NodeName(i, name)) == name
  {
    FormatIndexShape(i);
    var s := NodeName(i, name);
    var f := FormatIndex(i);
    assert s == "n" + f + "_" + name;
    assert s[1] == f[0] && s[2] == f[1] && s[3] == f[2] && s[4] == '_';
    assert s[5..] == name;
  }

  /** From index 1000 on the prefix has four digits, the pattern no longer
      matches, and the decorated name survives import unchanged. */
  lemma LongIndexIsNotStripped(i: nat, name: string)
    requires i > 999
    ensures StripNodePrefix(NodeName(i, name)) == NodeName(i, name)
  {
    FormatIndexShape(i);
    var s := NodeName(i, name);
    var f := FormatIndex(i);
    assert s == "n" + f + "_" + name;
    assert s[4] == f[3];
  }

  /** The names pass one produces for the nodes of `order`, numbered from `first`. */
  function DecoratedNames(order: seq<Node>, first: nat): (r: seq<string>)
    ensures |r| == |order|
  {
    seq(|order|, k requires 0 <= k < |order| => NodeName(first + k, order[k].name))
  }

  lemma DecoratedNamesAppend(a: seq<Node>, b: seq<Node>, first: nat)
    ensures DecoratedNames(a + b, first) == DecoratedNames(a, first) + DecoratedNames(b, first + |a|)
  {
    var l := DecoratedNames(a + b, first);
    var r := DecoratedNames(a, first) + DecoratedNames(b, first + |a|);
    forall k | 0 <= k < |l| ensures l[k] == r[k] {
      if k >= |a| { assert (a + b)[k] == b[k - |a|]; }
    }
  }

  // ---------------------------------------------------------------------------
  // Export: pass one (ProcessNodes) and pass two (AssimpExportWeighted)

  /** The tree with its pre-order nodes renamed from `names`, starting at
      position `first`: what the second pass builds. */
  function Relabel(n: Node, names: seq<string>, first: nat): Node
    requires first + |PreOrder(n)| <= |names|
    decreases n, 1
  {
    Node(names[first], RelabelForest(n.children, names, first + 1))
  }

  function RelabelForest(ns: seq<Node>, names: seq<string>, first: nat): seq<Node>
    requires first + |Forest(ns)| <= |names|
    decreases ns, 0
  {
    if ns == [] then []
    else [Relabel(ns[0], names, first)] + RelabelForest(ns[1..], names, first + |PreOrder(ns[0])|)
  }

  /** The relabelled tree has the same pre-order shape as the original, and
      its k-th pre-order node carries `names[first + k]`. */
  lemma {:induction false} RelabelPreOrder(n: Node, names: seq<string>, first: nat)
    requires first + |PreOrder(n)| <= |names|
    decreases n, 1
    ensures |PreOrder(Relabel(n, names, first))| == |PreOrder(n)|
    ensures forall k :: 0 <= k < |PreOrder(n)| ==>
      PreOrder(Relabel(n, names, first))[k].name == names[first + k] &&
      |PreOrder(Relabel(n, names, first))[k].children| == |PreOrder(n)[k].children|
  {
    RelabelForestPreOrder(n.children, names, first + 1);
    var r := Relabel(n, names, first);
    assert PreOrder(r) == [r] + Forest(r.children);
  }

  lemma {:induction false} RelabelForestPreOrder(ns: seq<Node>, names: seq<string>, first: nat)
    requires first + |Forest(ns)| <= |names|
    decreases ns, 0
    ensures |RelabelForest(ns, names, first)| == |ns|
    ensures |Forest(RelabelForest(ns, names, first))| == |Forest(ns)|
    ensures forall k :: 0 <= k < |Forest(ns)| ==>
      Forest(RelabelForest(ns, names, first))[k].name == names[first + k] &&
      |Forest(RelabelForest(ns, names, first))[k].children| == |Forest(ns)[k].children|
  {
    if ns != [] {
      var h := ns[0];
      var p := |PreOrder(h)|;
      RelabelPreOrder(h, names, first);
      RelabelForestPreOrder(ns[1..], names, first + p);
      var rs := RelabelForest(ns, names, first);
      assert rs[0] == Relabel(h, names, first);
      assert rs[1..] == RelabelForest(ns[1..], names, first + p);
      var out := Forest(rs);
      assert out == PreOrder(rs[0]) + Forest(rs[1..]);
      forall k | 0 <= k < |Forest(ns)|
        ensures out[k].name == names[first + k] && |out[k].children| == |Forest(ns)[k].children|
      {
        if k >= p {
          assert out[k] == Forest(rs[1..])[k - p];
          assert Forest(ns)[k] == Forest(ns[1..])[k - p];
        } else {
          assert Forest(ns)[k] == PreOrder(h)[k];
        }
      }
    }
  }

  /** Export's shared working state: the decorated names of pass one, indexed
      by pre-order position (the node transforms beside them are left out). */
  class ExportNames {
    var nodeNames: seq<string>

    constructor ()
      ensures nodeNames == []
    {
      nodeNames := [];
    }

    /** Pass one: bumps the running index, records the decorated name, then
        visits the children in order. */
    method ProcessNodes(n: Node, mdlindex: int) returns (next: int)
      requires -1 <= mdlindex
      modifies this
      decreases n
      ensures next == mdlindex + |PreOrder(n)|
      ensures nodeNames == old(nodeNames) + DecoratedNames(PreOrder(n), mdlindex + 1)
    {
      ghost var prev := nodeNames;
      next := mdlindex + 1;
      nodeNames := nodeNames + [NodeName(next, n.name)];
      NamesStart(prev, n, next);
      var i := 0;
      while i < |n.children|
        invariant 0 <= i <= |n.children|
        invariant next == mdlindex + 1 + |Forest(n.children[..i])|
        invariant nodeNames == prev + DecoratedNames([n] + Forest(n.children[..i]), mdlindex + 1)
      {
        next := ProcessNodes(n.children[i], next);
        NamesStep(prev, n, i, mdlindex + 1);
        i := i + 1;
      }
      NamesEnd(n);
    }

    /** Pass two: each node is named by reading `nodeNames` at its own
        pre-order index; an index past the list fails. */
    method EmitNames(n: Node, mdlindex: int) returns (next: int, r: Result<Node>)
      requires -1 <= mdlindex
      decreases n
      ensures next == mdlindex + |PreOrder(n)|
      ensures r.Ok? <==> next < |nodeNames|
      ensures r.Ok? ==> r.value == Relabel(n, nodeNames, mdlindex + 1)
      ensures r.Err? ==> r.fault == IndexOutOfRange
    {
      next := mdlindex + 1;
      if next >= |nodeNames| {
        next := mdlindex + |PreOrder(n)|;
        return next, Err(IndexOutOfRange);
      }
      var name := nodeNames[next];
      var kids: seq<Node> := [];
      var i := 0;
      while i < |n.children|
        invariant 0 <= i <= |n.children|
        invariant next == mdlindex + 1 + |Forest(n.children[..i])|
        invariant next < |nodeNames|
        invariant kids == RelabelForest(n.children[..i], nodeNames, mdlindex + 2)
      {
        var c := n.children[i];
        var res;
        next, res := EmitNames(c, next);
        assert n.children[..i + 1] == n.children[..i] + [c];
        ForestAppend(n.children[..i], c);
        if res.Err? {
          next := mdlindex + |PreOrder(n)|;
          ForestPrefixBound(n.children, i + 1);
          return next, Err(IndexOutOfRange);
        }
        RelabelForestAppend(n.children[..i], c, nodeNames, mdlindex + 2);
        kids := kids + [res.value];
        i := i + 1;
      }
      assert n.children[..i] == n.children;
      r := Ok(Node(name, kids));
    }
  }

  /** Before any child: the node's own name only. */
  lemma NamesStart(prev: seq<string>, n: Node, first: nat)
    ensures prev + [NodeName(first, n.name)] == prev + DecoratedNames([n] + Forest(n.children[..0]), first)
  {
    assert [n] + Forest(n.children[..0]) == [n];
  }

  /** After every child: the node's whole pre-order. */
  lemma NamesEnd(n: Node)
    ensures [n] + Forest(n.children[..|n.children|]) == PreOrder(n)
  {
    assert n.children[..|n.children|] == n.children;
  }

  /** The names of a node and its first i + 1 subtrees, after `prev`, are
      those of the first i subtrees followed by those of subtree i. */
  lemma NamesStep(prev: seq<string>, n: Node, i: int, first: nat)
    requires 0 <= i < |n.children|
    ensures |Forest(n.children[..i + 1])| == |Forest(n.children[..i])| + |PreOrder(n.children[i])|
    ensures prev + DecoratedNames([n] + Forest(n.children[..i + 1]), first)
         == (prev + DecoratedNames([n] + Forest(n.children[..i]), first))
          + DecoratedNames(PreOrder(n.children[i]), first + 1 + |Forest(n.children[..i])|)
  {
    ForestStep(n, i);
    assert n.children[..i + 1] == n.children[..i] + [n.children[i]];
    ForestAppend(n.children[..i], n.children[i]);
    DecoratedNamesAppend([n] + Forest(n.children[..i]), PreOrder(n.children[i]), first);
  }

  lemma {:induction false} ForestPrefixBound(ns: seq<Node>, i: nat)
    requires i <= |ns|
    ensures |Forest(ns[..i])| <= |Forest(ns)|
    decreases |ns| - i
  {
    if i < |ns| {
      ForestPrefixBound(ns, i + 1);
      assert ns[..i + 1] == ns[..i] + [ns[i]];
      ForestAppend(ns[..i], ns[i]);
    } else {
      assert ns[..i] == ns;
    }
  }

  lemma {:induction false} RelabelForestAppend(ns: seq<Node>, m: Node, names: seq<string>, first: nat)
    requires first + |Forest(ns + [m])| <= |names|
    ensures Forest(ns + [m]) == Forest(ns) + PreOrder(m)
    ensures first + |Forest(ns)| <= |names|
    ensures RelabelForest(ns + [m], names, first)
         == RelabelForest(ns, names, first) + [Relabel(m, names, first + |Forest(ns)|)]
  {
    ForestAppend(ns, m);
    if ns != [] {
      assert (ns + [m])[0] == ns[0];
      assert (ns + [m])[1..] == ns[1..] + [m];
      ForestAppend(ns[1..], m);
      RelabelForestAppend(ns[1..], m, names, first + |PreOrder(ns[0])|);
    } else {
      assert ns + [m] == [m];
    }
  }

  /** The two export passes agree: the k-th node of the emitted tree in
      pre-order is the k-th node of the source tree, named with index k. */
  lemma ExportPassesAgree(root: Node)
    ensures |PreOrder(Relabel(root, DecoratedNames(PreOrder(root), 0), 0))| == |PreOrder(root)|
    ensures forall k :: 0 <= k < |PreOrder(root)| ==>
      PreOrder(Relabel(root, DecoratedNames(PreOrder(root), 0), 0))[k].name
        == NodeName(k, PreOrder(root)[k].name)
  {
    RelabelPreOrder(root, DecoratedNames(PreOrder(root), 0), 0);
  }

  // ---------------------------------------------------------------------------
  // Import: FillNodeIndexForSort

  /** The pre-order nodes' names are pairwise distinct and none is in `keys`. */
  predicate FreshNames(order: seq<Node>, keys: set<string>) {
    (forall i :: 0 <= i < |order| ==> order[i].name !in keys) &&
    (forall i, j :: 0 <= i < j < |order| ==> order[i].name != order[j].name)
  }

  function NameSet(order: seq<Node>): set<string> {
    set i | 0 <= i < |order| :: order[i].name
  }

  /** `m` with the nodes of `order` added in turn, numbered from `first`. */
  function Numbered(m: map<string, int>, order: seq<Node>, first: int): map<string, int>
    decreases |order|
  {
    if order == [] then m else Numbered(m[order[0].name := first], order[1..], first + 1)
  }

  /** `m` with the nodes of `order` added in turn under their names. */
  function Registered(m: map<string, Node>, order: seq<Node>): map<string, Node>
    decreases |order|
  {
    if order == [] then m else Registered(m[order[0].name := order[0]], order[1..])
  }

  lemma {:induction false} FreshNamesAppend(a: seq<Node>, b: seq<Node>, keys: set<string>)
    ensures FreshNames(a + b, keys) <==> FreshNames(a, keys) && FreshNames(b, keys + NameSet(a))
  {
    var s := a + b;
    if FreshNames(a, keys) && FreshNames(b, keys + NameSet(a)) {
      forall i, j | 0 <= i < j < |s| ensures s[i].name != s[j].name {
        if j >= |a| && i < |a| {
          assert s[i].name in NameSet(a);
          assert s[j] == b[j - |a|];
        } else if i >= |a| {
          assert s[i] == b[i - |a|] && s[j] == b[j - |a|];
        }
      }
      forall i | 0 <= i < |s| ensures s[i].name !in keys {
        if i >= |a| { assert s[i] == b[i - |a|]; }
      }
    }
    if FreshNames(s, keys) {
      forall i | 0 <= i < |b| ensures b[i].name !in keys + NameSet(a) {
        assert s[|a| + i] == b[i];
        forall j | 0 <= j < |a| ensures a[j].name != b[i].name {
          assert s[j] == a[j];
        }
      }
      forall i, j | 0 <= i < j < |b| ensures b[i].name != b[j].name {
        assert s[|a| + i] == b[i] && s[|a| + j] == b[j];
      }
      forall i | 0 <= i < |a| ensures a[i].name !in keys { assert s[i] == a[i]; }
      forall i, j | 0 <= i < j < |a| ensures a[i].name != a[j].name { assert s[i] == a[i] && s[j] == a[j]; }
    }
  }

  lemma {:induction false} NumberedAppend(m: map<string, int>, a: seq<Node>, b: seq<Node>, first: int)
    ensures Numbered(m, a + b, first) == Numbered(Numbered(m, a, first), b, first + |a|)
    decreases |a|
  {
    if a != [] {
      assert (a + b)[0] == a[0];
      assert (a + b)[1..] == a[1..] + b;
      NumberedAppend(m[a[0].name := first], a[1..], b, first + 1);
    } else {
      assert a + b == b;
    }
  }

  lemma {:induction false} RegisteredAppend(m: map<string, Node>, a: seq<Node>, b: seq<Node>)
    ensures Registered(m, a + b) == Registered(Registered(m, a), b)
    decreases |a|
  {
    if a != [] {
      assert (a + b)[0] == a[0];
      assert (a + b)[1..] == a[1..] + b;
      RegisteredAppend(m[a[0].name := a[0]], a[1..], b);
    } else {
      assert a + b == b;
    }
  }

  lemma {:induction false} NumberedKeys(m: map<string, int>, r: map<string, Node>, order: seq<Node>, first: int)
    ensures Numbered(m, order, first).Keys == m.Keys + NameSet(order)
    ensures Registered(r, order).Keys == r.Keys + NameSet(order)
    decreases |order|
  {
    if order != [] {
      NumberedKeys(m[order[0].name := first], r[order[0].name := order[0]], order[1..], first + 1);
      assert NameSet(order) == {order[0].name} + NameSet(order[1..]) by {
        forall x | x in NameSet(order) ensures x in {order[0].name} + NameSet(order[1..]) {
          var i :| 0 <= i < |order| && order[i].name == x;
          if i > 0 { assert order[1..][i - 1] == order[i]; }
        }
        forall x | x in NameSet(order[1..]) ensures x in NameSet(order) {
          var i :| 0 <= i < |order[1..]| && order[1..][i].name == x;
          assert order[i + 1] == order[1..][i];
        }
      }
    }
  }

  /** With fresh names, the k-th node of `order` is numbered first + k and
      every key already present keeps its number. */
  lemma {:induction false} NumberedAt(m: map<string, int>, order: seq<Node>, first: int)
    requires FreshNames(order, m.Keys)
    ensures forall k :: 0 <= k < |order| ==>
      order[k].name in Numbered(m, order, first) && Numbered(m, order, first)[order[k].name] == first + k
    ensures forall x :: x in m ==> x in Numbered(m, order, first) && Numbered(m, order, first)[x] == m[x]
    decreases |order|
  {
    if order != [] {
      var m1 := m[order[0].name := first];
      var rest := order[1..];
      assert FreshNames(rest, m1.Keys) by {
        forall i | 0 <= i < |rest| ensures rest[i].name !in m1.Keys {
          assert rest[i] == order[i + 1];
        }
        forall i, j | 0 <= i < j < |rest| ensures rest[i].name != rest[j].name {
          assert rest[i] == order[i + 1] && rest[j] == order[j + 1];
        }
      }
      NumberedAt(m1, rest, first + 1);
      forall k | 0 <= k < |order|
        ensures order[k].name in Numbered(m, order, first) && Numbered(m, order, first)[order[k].name] == first + k
      {
        if k > 0 { assert order[k] == rest[k - 1]; }
      }
    }
  }

  /** Import's name tables, filled in pre-order; Dictionary.Add throws on a
      name that is already a key. */
  class ImportIndex {
    var nodeIndexForSort: map<string, int>
    var nodemap: map<string, Node>

    constructor ()
      ensures nodeIndexForSort == map[] && nodemap == map[]
    {
      nodeIndexForSort := map[];
      nodemap := map[];
    }

    method FillNodeIndexForSort(n: Node, mdlindex: int) returns (next: int, r: Result<()>)
      requires nodemap.Keys == nodeIndexForSort.Keys
      modifies this
      decreases n
      ensures r.Ok? <==> FreshNames(PreOrder(n), old(nodeIndexForSort).Keys)
      ensures r.Err? ==> r.fault == DuplicateKey
      ensures r.Ok? ==> next == mdlindex + |PreOrder(n)|
      ensures r.Ok? ==> nodeIndexForSort == Numbered(old(nodeIndexForSort), PreOrder(n), mdlindex + 1)
      ensures r.Ok? ==> nodemap == Registered(old(nodemap), PreOrder(n))
    {
      ghost var m0 := nodeIndexForSort;
      ghost var r0 := nodemap;
      next := mdlindex + 1;
      if n.name in nodeIndexForSort {
        assert PreOrder(n)[0] == n;
        return next, Err(DuplicateKey);
      }
      nodeIndexForSort := nodeIndexForSort[n.name := next];
      nodemap := nodemap[n.name := n];
      FillFirst(n, m0, r0, mdlindex + 1);
      assert [n] + Forest(n.children[..0]) == [n] by {
        assert n.children[..0] == [];
      }
      ghost var visited := [n];
      var i := 0;
      while i < |n.children|
        invariant 0 <= i <= |n.children|
        invariant visited == [n] + Forest(n.children[..i])
        invariant next == mdlindex + |visited|
        invariant FreshNames(visited, m0.Keys)
        invariant nodeIndexForSort == Numbered(m0, visited, mdlindex + 1)
        invariant nodemap == Registered(r0, visited)
      {
        FillAdvance(n, i, visited, m0, r0, mdlindex + 1);
        var res;
        next, res := FillNodeIndexForSort(n.children[i], next);
        if res.Err? {
          return next, res;
        }
        visited := visited + PreOrder(n.children[i]);
        i := i + 1;
      }
      NamesEnd(n);
      r := Ok(());
    }
  }

  /** One child's subtree added to the import tables: the visited prefix
      grows by the subtree, the tables by its names, and the subtree's names
      are fresh for the tables so far exactly when the longer prefix is
      fresh for the original keys. */
  lemma FillAdvance(n: Node, i: int, visited: seq<Node>, m0: map<string, int>, r0: map<string, Node>, first: int)
    requires 0 <= i < |n.children|
    requires visited == [n] + Forest(n.children[..i])
    requires m0.Keys == r0.Keys
    requires FreshNames(visited, m0.Keys)
    ensures visited + PreOrder(n.children[i]) == [n] + Forest(n.children[..i + 1])
    ensures Registered(r0, visited).Keys == Numbered(m0, visited, first).Keys
    ensures FreshNames(visited + PreOrder(n.children[i]), m0.Keys)
        <==> FreshNames(PreOrder(n.children[i]), Numbered(m0, visited, first).Keys)
    ensures FreshNames(PreOrder(n), m0.Keys) ==> FreshNames(visited + PreOrder(n.children[i]), m0.Keys)
    ensures Numbered(m0, visited + PreOrder(n.children[i]), first)
         == Numbered(Numbered(m0, visited, first), PreOrder(n.children[i]), first + |visited|)
    ensures Registered(r0, visited + PreOrder(n.children[i]))
         == Registered(Registered(r0, visited), PreOrder(n.children[i]))
  {
    var pc := PreOrder(n.children[i]);
    FillStep(visited, pc, m0, r0, first);
    ForestStep(n, i);
    ForestFreshPrefix(n, i + 1, m0.Keys);
    NumberedAppend(m0, visited, pc, first);
    RegisteredAppend(r0, visited, pc);
  }

  lemma FillFirst(n: Node, m0: map<string, int>, r0: map<string, Node>, first: int)
    requires n.name !in m0
    ensures FreshNames([n], m0.Keys)
    ensures m0[n.name := first] == Numbered(m0, [n], first)
    ensures r0[n.name := n] == Registered(r0, [n])
  {
  }

  lemma ForestStep(n: Node, i: int)
    requires 0 <= i < |n.children|
    ensures [n] + Forest(n.children[..i + 1]) == [n] + Forest(n.children[..i]) + PreOrder(n.children[i])
  {
    assert n.children[..i + 1] == n.children[..i] + [n.children[i]];
    ForestAppend(n.children[..i], n.children[i]);
  }

  /** One child's subtree added to the tables: the keys so far are the old
      keys plus the names numbered so far. */
  lemma FillStep(before: seq<Node>, pc: seq<Node>, m0: map<string, int>, r0: map<string, Node>, first: int)
    requires m0.Keys == r0.Keys
    ensures Numbered(m0, before, first).Keys == m0.Keys + NameSet(before)
    ensures Registered(r0, before).Keys == Numbered(m0, before, first).Keys
    ensures FreshNames(before, m0.Keys) ==>
      (FreshNames(before + pc, m0.Keys) <==> FreshNames(pc, m0.Keys + NameSet(before)))
  {
    NumberedKeys(m0, r0, before, first);
    FreshNamesAppend(before, pc, m0.Keys);
  }

  /** A fresh pre-order has fresh prefixes (the failure direction above). */
  lemma ForestFreshPrefix(n: Node, i: nat, keys: set<string>)
    requires i <= |n.children|
    ensures FreshNames(PreOrder(n), keys) ==> FreshNames([n] + Forest(n.children[..i]), keys)
  {
    var a, b := n.children[..i], n.children[i..];
    assert a + b == n.children;
    ForestConcat(a, b);
    assert PreOrder(n) == ([n] + Forest(a)) + Forest(b);
    FreshNamesPrefix([n] + Forest(a), Forest(b), keys);
  }

  /** The front part of a fresh order is fresh. */
  lemma FreshNamesPrefix(a: seq<Node>, b: seq<Node>, keys: set<string>)
    ensures FreshNames(a + b, keys) ==> FreshNames(a, keys)
  {
    if FreshNames(a + b, keys) {
      forall i | 0 <= i < |a| ensures a[i].name !in keys {
        assert (a + b)[i] == a[i];
      }
      forall i, j | 0 <= i < j < |a| ensures a[i].name != a[j].name {
        assert (a + b)[i] == a[i] && (a + b)[j] == a[j];
      }
    }
  }

  lemma {:induction false} ForestConcat(a: seq<Node>, b: seq<Node>)
    ensures Forest(a + b) == Forest(a) + Forest(b)
  {
    if a != [] {
      assert (a + b)[0] == a[0];
      assert (a + b)[1..] == a[1..] + b;
      ForestConcat(a[1..], b);
    } else {
      assert a + b == b;
    }
  }
}
