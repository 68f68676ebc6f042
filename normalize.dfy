/** The normaliser run before trees are compared: identifiers are renamed to
    "var1", "var2", ... in the order they are first met in a pre-order walk,
    and literal payloads are replaced by a fixed value of their type, so that
    two programs differing only in names or constants normalise alike. */
module Normalize {
  import opened Values
  import opened Ast

  /** The canonical name given to the `k`-th distinct identifier. */
  function VarName(k: nat): (s: string)
    ensures |s| > 3 && s[..3] == "var"
  {
    "var" + NatToDecimal(k)
  }

  lemma VarNameInjective(j: nat, k: nat)
    requires VarName(j) == VarName(k)
    ensures j == k
  {
    assert NatToDecimal(j) == VarName(j)[3..];
    assert NatToDecimal(k) == VarName(k)[3..];
    NatToDecimalInjective(j, k);
  }

  /** The normaliser's state: names handed out so far and the next number. */
  datatype Naming = Naming(varMap: map<Value, string>, varCounter: nat)

  /** A normaliser as it is created: empty map, counter at 1. */
  const Fresh: Naming := Naming(map[], 1)

  /** The fixed payload a literal gets; other non-identifier kinds keep theirs. */
  function LiteralValue(kind: Kind, v: Value): (r: Value)
    requires kind != Identifier
    ensures kind == Number ==> r == IntVal(0)
    ensures kind == Float ==> r == FloatVal(0.0)
    ensures kind == String ==> r == StrVal("")
    ensures kind !in {Number, Float, String} ==> r == v
  {
    match kind
    case Number => IntVal(0)
    case Float => FloatVal(0.0)
    case String => StrVal("")
    case _ => v
  }

  /** Handling of one identifier value: its existing name, or the next one. */
  function NameOf(v: Value, st: Naming): (r: (Value, Naming))
    ensures v in r.1.varMap && r.0 == StrVal(r.1.varMap[v])
    ensures MapExtends(st.varMap, r.1.varMap)
    ensures v in st.varMap ==> r.1 == st
    ensures v !in st.varMap ==> r.1.varMap[v] == VarName(st.varCounter) && r.1.varCounter == st.varCounter + 1
  {
    if v in st.varMap then (StrVal(st.varMap[v]), st)
    else
      var name := VarName(st.varCounter);
      (StrVal(name), Naming(st.varMap[v := name], st.varCounter + 1))
  }

  /** The new payload of one node and the state after it. */
  function NodeValue(n: Node, st: Naming): (r: (Value, Naming))
    ensures n.kind == Identifier ==> n.value in r.1.varMap && r.0 == StrVal(r.1.varMap[n.value])
    ensures n.kind != Identifier ==> r.1 == st
    ensures n.kind in {Number, Float, String} ==> r.0 in {IntVal(0), FloatVal(0.0), StrVal("")}
    ensures MapExtends(st.varMap, r.1.varMap)
  {
    if n.kind == Identifier then NameOf(n.value, st)
    else (LiteralValue(n.kind, n.value), st)
  }

  /** `ASTNormalizer.normalize` on a node, as a function of the state: the node
      first, then its children left to right, each with the state the previous
      one left. */
  function NormalizeNode(n: Node, st: Naming): (r: (Node, Naming))
    ensures r.0.kind == n.kind && |r.0.children| == |n.children|
    ensures st.varCounter <= r.1.varCounter
    decreases n, 1
  {
    var (v, st1) := NodeValue(n, st);
    var (cs, st2) := NormalizeList(n.children, st1);
    (Node(n.kind, cs, v), st2)
  }

  function NormalizeList(cs: seq<Node>, st: Naming): (r: (seq<Node>, Naming))
    ensures |r.0| == |cs|
    ensures st.varCounter <= r.1.varCounter
    decreases cs, 0
  {
    if cs == [] then ([], st)
    else
      var (c, st1) := NormalizeNode(cs[0], st);
      var (rest, st2) := NormalizeList(cs[1..], st1);
      ([c] + rest, st2)
  }

  /** One step of the walk over a list of children, from position `k`. */
  lemma NormalizeListUnfold(cs: seq<Node>, k: nat, st: Naming)
    requires k < |cs|
    ensures var (c, st1) := NormalizeNode(cs[k], st);
            NormalizeList(cs[k..], st) == ([c] + NormalizeList(cs[k + 1..], st1).0, NormalizeList(cs[k + 1..], st1).1)
  {
    assert cs[k..][1..] == cs[k + 1..];
  }

  /** What a fresh normaliser returns for a tree or for None. */
  function NormalizeTree(t: Option<Node>): (r: Option<Node>)
    ensures r.None? <==> t.None?
    ensures t.Some? ==> Size(r.value) == Size(t.value)
  {
    match t
    case None => None
    case Some(n) =>
      NormalizePreservesShape(n, Fresh);
      Some(NormalizeNode(n, Fresh).0)
  }

  // ---------------------------------------------------------------------------
  // The normaliser as the object the source defines
  // ---------------------------------------------------------------------------

  class ASTNormalizer {
    var varCounter: nat
    var varMap: map<Value, string>

    function State(): Naming
      reads this
    {
      Naming(varMap, varCounter)
    }

    constructor()
      ensures State() == Fresh
    {
      varCounter := 1;
      varMap := map[];
    }

    /** Normalises `node`, renaming identifiers through the map kept in this
        object, which therefore grows across calls. */
    method Normalize(node: Option<Node>) returns (result: Option<Node>)
      modifies this
      ensures node.None? ==> result.None? && State() == old(State())
      ensures node.Some? ==> result == Some(NormalizeNode(node.value, old(State())).0)
                             && State() == NormalizeNode(node.value, old(State())).1
      decreases SubtreeSize(node)
    {
      if node.None? {
        return None;
      }
      var n := node.value;
      var value := n.value;
      if n.kind == Identifier {
        if n.value !in varMap {
          varMap := varMap[n.value := VarName(varCounter)];
          varCounter := varCounter + 1;
        }
        value := StrVal(varMap[n.value]);
      } else if n.kind in {Number, Float, String} {
        if n.kind == Number {
          value := IntVal(0);
        } else if n.kind == Float {
          value := FloatVal(0.0);
        } else {
          value := StrVal("");
        }
      }
      ghost var st1 := State();
      assert (value, st1) == NodeValue(n, old(State()));
      var children: seq<Node> := [];
      var k := 0;
      while k < |n.children|
        invariant 0 <= k <= |n.children|
        invariant NormalizeList(n.children, st1).0 == children + NormalizeList(n.children[k..], State()).0
        invariant NormalizeList(n.children, st1).1 == NormalizeList(n.children[k..], State()).1
      {
        SizeAtMostSum(n.children, k);
        ghost var before := State();
        NormalizeListUnfold(n.children, k, before);
        var c := Normalize(Some(n.children[k]));
        ghost var rest := NormalizeList(n.children[k + 1..], State()).0;
        assert children + ([c.value] + rest) == (children + [c.value]) + rest;
        children := children + [c.value];
        k := k + 1;
      }
      assert n.children[k..] == [];
      assert children + [] == children;
      assert NormalizeNode(n, old(State())) == (Node(n.kind, children, value), State());
      result := Some(Node(n.kind, children, value));
    }
  }

  // ---------------------------------------------------------------------------
  // The normalised tree described without the state
  // ---------------------------------------------------------------------------

  /** Identifier payloads of a tree, in the pre-order the normaliser meets them. */
  function Idents(n: Node): seq<Value>
    decreases n, 1
  {
    (if n.kind == Identifier then [n.value] else []) + IdentsList(n.children)
  }

  function IdentsList(cs: seq<Node>): seq<Value>
    decreases cs, 0
  {
    if cs == [] then [] else Idents(cs[0]) + IdentsList(cs[1..])
  }

  /** `n` with every identifier renamed through `m` (when it has a name there)
      and every literal payload fixed. */
  function Canon(n: Node, m: map<Value, string>): Node
    decreases n
  {
    var v :=
      if n.kind != Identifier then LiteralValue(n.kind, n.value)
      else if n.value in m then StrVal(m[n.value])
      else n.value;
    Node(n.kind, seq(|n.children|, k requires 0 <= k < |n.children| => Canon(n.children[k], m)), v)
  }

  /** `m2` keeps every name `m1` gave. */
  predicate MapExtends(m1: map<Value, string>, m2: map<Value, string>)
  {
    forall v :: v in m1 ==> v in m2 && m2[v] == m1[v]
  }

  /** Canonical forms do not change when the map grows beyond the names used. */
  lemma {:induction false} CanonStable(n: Node, m1: map<Value, string>, m2: map<Value, string>)
    requires MapExtends(m1, m2)
    requires forall v :: v in Idents(n) ==> v in m1
    ensures Canon(n, m1) == Canon(n, m2)
    decreases n, 1
  {
    CanonStableList(n.children, m1, m2);
  }

  lemma {:induction false} CanonStableList(cs: seq<Node>, m1: map<Value, string>, m2: map<Value, string>)
    requires MapExtends(m1, m2)
    requires forall v :: v in IdentsList(cs) ==> v in m1
    ensures forall k :: 0 <= k < |cs| ==> Canon(cs[k], m1) == Canon(cs[k], m2)
    decreases cs, 0
  {
    if cs != [] {
      var head, tail := Idents(cs[0]), IdentsList(cs[1..]);
      assert IdentsList(cs) == head + tail;
      forall v | v in head ensures v in m1 { assert v in head + tail; }
      forall v | v in tail ensures v in m1 { assert v in head + tail; }
      CanonStable(cs[0], m1, m2);
      CanonStableList(cs[1..], m1, m2);
      forall k | 0 < k < |cs| ensures Canon(cs[k], m1) == Canon(cs[k], m2) {
        assert cs[k] == cs[1..][k - 1];
      }
    }
  }

  /** Normalising from any state names every identifier of `n`, keeps the names
      already given, and returns `n` renamed through the final map with its
      literals fixed. */
  lemma {:induction false} NormalizeIsCanon(n: Node, st: Naming)
    ensures MapExtends(st.varMap, NormalizeNode(n, st).1.varMap)
    ensures forall v :: v in Idents(n) ==> v in NormalizeNode(n, st).1.varMap
    ensures NormalizeNode(n, st).0 == Canon(n, NormalizeNode(n, st).1.varMap)
    decreases n, 1
  {
    var (v, st1) := NodeValue(n, st);
    var (cs, st2) := NormalizeList(n.children, st1);
    NormalizeListIsCanon(n.children, st1);
    var out := Node(n.kind, cs, v);
    assert NormalizeNode(n, st) == (out, st2);
    assert out.children == Canon(n, st2.varMap).children;
  }

  lemma {:induction false} NormalizeListIsCanon(cs: seq<Node>, st: Naming)
    ensures MapExtends(st.varMap, NormalizeList(cs, st).1.varMap)
    ensures forall v :: v in IdentsList(cs) ==> v in NormalizeList(cs, st).1.varMap
    ensures forall k :: 0 <= k < |cs| ==>
              NormalizeList(cs, st).0[k] == Canon(cs[k], NormalizeList(cs, st).1.varMap)
    decreases cs, 0
  {
    if cs != [] {
      var (c, st1) := NormalizeNode(cs[0], st);
      var (rest, st2) := NormalizeList(cs[1..], st1);
      NormalizeIsCanon(cs[0], st);
      NormalizeListIsCanon(cs[1..], st1);
      CanonStable(cs[0], st1.varMap, st2.varMap);
      assert NormalizeList(cs, st) == ([c] + rest, st2);
      forall k | 0 < k < |cs|
        ensures ([c] + rest)[k] == Canon(cs[k], st2.varMap)
      {
        assert cs[k] == cs[1..][k - 1];
      }
    }
  }

  /** Canonical forms keep every node's kind and child count. */
  lemma {:induction false} CanonShape(n: Node, m: map<Value, string>)
    ensures SameShape(n, Canon(n, m))
    decreases n
  {
    forall k | 0 <= k < |n.children| ensures SameShape(n.children[k], Canon(n, m).children[k]) {
      CanonShape(n.children[k], m);
    }
  }

  /** The normalised tree has the shape, hence the size, of the original, and
      every payload is the fixed literal or the canonical name. */
  lemma NormalizePreservesShape(n: Node, st: Naming)
    ensures SameShape(n, NormalizeNode(n, st).0)
    ensures Size(NormalizeNode(n, st).0) == Size(n)
  {
    NormalizeIsCanon(n, st);
    CanonShape(n, NormalizeNode(n, st).1.varMap);
    SameShapeSize(n, NormalizeNode(n, st).0);
  }

  // ---------------------------------------------------------------------------
  // Names are handed out in order of first encounter
  // ---------------------------------------------------------------------------

  /** The state after naming the identifier values `vs` one after the other. */
  function Assign(vs: seq<Value>, st: Naming): Naming
    decreases |vs|
  {
    if vs == [] then st else Assign(vs[1..], NameOf(vs[0], st).1)
  }

  /** The values of `vs` not in `seen`, each kept at its first occurrence. */
  function Dedup(vs: seq<Value>, seen: set<Value>): seq<Value>
    decreases |vs|
  {
    if vs == [] then []
    else if vs[0] in seen then Dedup(vs[1..], seen)
    else [vs[0]] + Dedup(vs[1..], seen + {vs[0]})
  }

  lemma {:induction false} AssignAppend(a: seq<Value>, b: seq<Value>, st: Naming)
    ensures Assign(a + b, st) == Assign(b, Assign(a, st))
    decreases |a|
  {
    if a == [] {
      assert a + b == b;
    } else {
      assert (a + b)[1..] == a[1..] + b;
      AssignAppend(a[1..], b, NameOf(a[0], st).1);
    }
  }

  /** The normaliser's state evolves exactly as if it named the identifiers of
      `n` in pre-order and did nothing else. */
  lemma {:induction false} NormalizeNamesInPreOrder(n: Node, st: Naming)
    ensures NormalizeNode(n, st).1 == Assign(Idents(n), st)
    decreases n, 1
  {
    var st1 := NodeValue(n, st).1;
    NormalizeListNamesInPreOrder(n.children, st1);
    if n.kind == Identifier {
      assert [n.value][1..] == [];
      AssignAppend([n.value], IdentsList(n.children), st);
    } else {
      assert Idents(n) == IdentsList(n.children);
    }
  }

  lemma {:induction false} NormalizeListNamesInPreOrder(cs: seq<Node>, st: Naming)
    ensures NormalizeList(cs, st).1 == Assign(IdentsList(cs), st)
    decreases cs, 0
  {
    if cs != [] {
      NormalizeNamesInPreOrder(cs[0], st);
      NormalizeListNamesInPreOrder(cs[1..], NormalizeNode(cs[0], st).1);
      AssignAppend(Idents(cs[0]), IdentsList(cs[1..]), st);
    }
  }

  /** Naming a sequence of values gives the `j`-th newly met value the name
      numbered `counter + j`, keeps the old names, and names nothing else. */
  lemma {:induction false} AssignFirstEncounter(vs: seq<Value>, st: Naming)
    ensures Assign(vs, st).varCounter == st.varCounter + |Dedup(vs, st.varMap.Keys)|
    ensures forall j :: 0 <= j < |Dedup(vs, st.varMap.Keys)| ==>
              Dedup(vs, st.varMap.Keys)[j] in Assign(vs, st).varMap &&
              Assign(vs, st).varMap[Dedup(vs, st.varMap.Keys)[j]] == VarName(st.varCounter + j)
    ensures MapExtends(st.varMap, Assign(vs, st).varMap)
    ensures forall v :: v in Assign(vs, st).varMap <==> v in st.varMap || v in vs
    decreases |vs|
  {
    if vs != [] {
      var v := vs[0];
      var st1 := NameOf(v, st).1;
      AssignFirstEncounter(vs[1..], st1);
      if v !in st.varMap {
        assert st1.varMap.Keys == st.varMap.Keys + {v};
        var d := Dedup(vs, st.varMap.Keys);
        assert d == [v] + Dedup(vs[1..], st1.varMap.Keys);
        forall j | 0 < j < |d|
          ensures d[j] in Assign(vs, st).varMap && Assign(vs, st).varMap[d[j]] == VarName(st.varCounter + j)
        {
          assert d[j] == Dedup(vs[1..], st1.varMap.Keys)[j - 1];
        }
      }
      forall u ensures u in Assign(vs, st).varMap <==> u in st.varMap || u in vs {
        assert u in vs <==> u == v || u in vs[1..];
      }
    }
  }

  /** `Dedup` lists every value of `vs` outside `seen` exactly once. */
  lemma {:induction false} DedupDistinct(vs: seq<Value>, seen: set<Value>)
    ensures forall i, j :: 0 <= i < j < |Dedup(vs, seen)| ==> Dedup(vs, seen)[i] != Dedup(vs, seen)[j]
    ensures forall v :: v in Dedup(vs, seen) <==> v in vs && v !in seen
    decreases |vs|
  {
    if vs != [] {
      var v := vs[0];
      if v in seen {
        DedupDistinct(vs[1..], seen);
      } else {
        DedupDistinct(vs[1..], seen + {v});
      }
      forall u ensures u in vs <==> u == v || u in vs[1..] {
      }
    }
  }

  /** A fresh normaliser names the distinct identifiers of a tree "var1",
      "var2", ... in the order they are first met in pre-order, and every
      occurrence of an identifier gets the name of its first occurrence. */
  lemma NormalizeNamesByFirstEncounter(n: Node)
    ensures var d := Dedup(Idents(n), {});
            var m := NormalizeNode(n, Fresh).1.varMap;
            && (forall i, j :: 0 <= i < j < |d| ==> d[i] != d[j])
            && (forall v :: v in m <==> v in Idents(n))
            && (forall j :: 0 <= j < |d| ==> d[j] in m && m[d[j]] == VarName(j + 1))
            && NormalizeNode(n, Fresh).0 == Canon(n, m)
  {
    NormalizeNamesInPreOrder(n, Fresh);
    assert Fresh.varMap.Keys == {};
    AssignFirstEncounter(Idents(n), Fresh);
    DedupDistinct(Idents(n), {});
    NormalizeIsCanon(n, Fresh);
  }

  // ---------------------------------------------------------------------------
  // What normalisation forgets: literal payloads and the choice of names
  // ---------------------------------------------------------------------------

  /** Equal but for the payloads of literal nodes. */
  predicate SameUpToLiterals(a: Node, b: Node)
    decreases a
  {
    && a.kind == b.kind && |a.children| == |b.children|
    && (a.kind !in {Number, Float, String} ==> a.value == b.value)
    && forall k :: 0 <= k < |a.children| ==> SameUpToLiterals(a.children[k], b.children[k])
  }

  /** Trees equal but for their literal payloads normalise identically. */
  lemma {:induction false} NormalizeIgnoresLiterals(a: Node, b: Node, st: Naming)
    requires SameUpToLiterals(a, b)
    ensures NormalizeNode(a, st) == NormalizeNode(b, st)
    decreases a, 1
  {
    NormalizeListIgnoresLiterals(a.children, b.children, NodeValue(a, st).1);
  }

  lemma {:induction false} NormalizeListIgnoresLiterals(xs: seq<Node>, ys: seq<Node>, st: Naming)
    requires |xs| == |ys| && forall k :: 0 <= k < |xs| ==> SameUpToLiterals(xs[k], ys[k])
    ensures NormalizeList(xs, st) == NormalizeList(ys, st)
    decreases xs, 0
  {
    if xs != [] {
      NormalizeIgnoresLiterals(xs[0], ys[0], st);
      NormalizeListIgnoresLiterals(xs[1..], ys[1..], NormalizeNode(xs[0], st).1);
    }
  }

  /** `n` with every identifier payload `v` replaced by `f(v)`. */
  function Rename(n: Node, f: Value -> Value): Node
    decreases n
  {
    Node(n.kind, seq(|n.children|, k requires 0 <= k < |n.children| => Rename(n.children[k], f)),
         if n.kind == Identifier then f(n.value) else n.value)
  }

  predicate InjectiveOn(f: Value -> Value, vs: seq<Value>)
  {
    forall u, v :: u in vs && v in vs && f(u) == f(v) ==> u == v
  }

  /** States of two normalisers, one run on a tree and one on its renaming by
      `f`, that agree on every name up to `f`. */
  predicate Related(st1: Naming, st2: Naming, f: Value -> Value, vs: seq<Value>)
  {
    && st1.varCounter == st2.varCounter
    && forall v :: v in vs ==>
         && (v in st1.varMap <==> f(v) in st2.varMap)
         && (v in st1.varMap ==> st2.varMap[f(v)] == st1.varMap[v])
  }

  /** Renaming keeps the shape of a tree. */
  lemma {:induction false} RenameShape(n: Node, f: Value -> Value)
    ensures SameShape(n, Rename(n, f))
    decreases n
  {
    forall k | 0 <= k < |n.children| ensures SameShape(n.children[k], Rename(n, f).children[k]) {
      RenameShape(n.children[k], f);
    }
  }

  /** Trees equal but for their literals have the same shape. */
  lemma {:induction false} SameUpToLiteralsShape(a: Node, b: Node)
    requires SameUpToLiterals(a, b)
    ensures SameShape(a, b)
    decreases a
  {
    forall k | 0 <= k < |a.children| ensures SameShape(a.children[k], b.children[k]) {
      SameUpToLiteralsShape(a.children[k], b.children[k]);
    }
  }

  /** Renaming identifiers injectively does not change the normalised tree. */
  lemma {:induction false} NormalizeIgnoresRenaming(n: Node, f: Value -> Value, vs: seq<Value>, st1: Naming, st2: Naming)
    requires InjectiveOn(f, vs) && Related(st1, st2, f, vs)
    requires forall v :: v in Idents(n) ==> v in vs
    ensures NormalizeNode(Rename(n, f), st2).0 == NormalizeNode(n, st1).0
    ensures Related(NormalizeNode(n, st1).1, NormalizeNode(Rename(n, f), st2).1, f, vs)
    decreases n, 1
  {
    var r := Rename(n, f);
    var (v1, s1) := NodeValue(n, st1);
    var (v2, s2) := NodeValue(r, st2);
    if n.kind == Identifier {
      assert n.value in vs;
      if n.value !in st1.varMap {
        forall u | u in vs
          ensures (u in s1.varMap <==> f(u) in s2.varMap)
          ensures u in s1.varMap ==> s2.varMap[f(u)] == s1.varMap[u]
        {
          assert f(u) == f(n.value) ==> u == n.value;
        }
      }
    }
    assert v1 == v2 && Related(s1, s2, f, vs);
    NormalizeListIgnoresRenaming(n.children, r.children, f, vs, s1, s2);
  }

  lemma {:induction false} NormalizeListIgnoresRenaming(cs: seq<Node>, rs: seq<Node>, f: Value -> Value, vs: seq<Value>, st1: Naming, st2: Naming)
    requires InjectiveOn(f, vs) && Related(st1, st2, f, vs)
    requires forall v :: v in IdentsList(cs) ==> v in vs
    requires |rs| == |cs| && forall k :: 0 <= k < |cs| ==> rs[k] == Rename(cs[k], f)
    ensures NormalizeList(rs, st2).0 == NormalizeList(cs, st1).0
    ensures Related(NormalizeList(cs, st1).1, NormalizeList(rs, st2).1, f, vs)
    decreases cs, 0
  {
    if cs != [] {
      NormalizeIgnoresRenaming(cs[0], f, vs, st1, st2);
      NormalizeListIgnoresRenaming(cs[1..], rs[1..], f, vs,
        NormalizeNode(cs[0], st1).1, NormalizeNode(rs[0], st2).1);
    }
  }

  /** The renaming of an absent tree is absent. */
  function RenameTree(t: Option<Node>, f: Value -> Value): Option<Node>
  {
    match t
    case None => None
    case Some(n) => Some(Rename(n, f))
  }

  /** Two programs that differ only by an injective renaming of their
      identifiers normalise to the same tree. */
  lemma NormalizeTreeIgnoresRenaming(t: Option<Node>, f: Value -> Value)
    requires t.Some? ==> InjectiveOn(f, Idents(t.value))
    ensures NormalizeTree(RenameTree(t, f)) == NormalizeTree(t)
  {
    if t.Some? {
      NormalizeIgnoresRenaming(t.value, f, Idents(t.value), Fresh, Fresh);
    }
  }

  // ---------------------------------------------------------------------------
  // Normalising twice changes nothing
  // ---------------------------------------------------------------------------

  /** Names in the map are distinct and all numbered below the counter. */
  predicate NamingInv(st: Naming)
  {
    && (forall u, v :: u in st.varMap && v in st.varMap && st.varMap[u] == st.varMap[v] ==> u == v)
    && (forall v :: v in st.varMap ==> exists k: nat :: k < st.varCounter && st.varMap[v] == VarName(k))
  }

  lemma NameOfKeepsInv(v: Value, st: Naming)
    requires NamingInv(st)
    ensures NamingInv(NameOf(v, st).1)
  {
    if v !in st.varMap {
      forall u | u in st.varMap ensures st.varMap[u] != VarName(st.varCounter) {
        var k: nat :| k < st.varCounter && st.varMap[u] == VarName(k);
        if st.varMap[u] == VarName(st.varCounter) {
          VarNameInjective(k, st.varCounter);
        }
      }
    }
  }

  lemma {:induction false} AssignKeepsInv(vs: seq<Value>, st: Naming)
    requires NamingInv(st)
    ensures NamingInv(Assign(vs, st))
    decreases |vs|
  {
    if vs != [] {
      NameOfKeepsInv(vs[0], st);
      AssignKeepsInv(vs[1..], NameOf(vs[0], st).1);
    }
  }

  /** In a normalised tree the identifiers are renamed through a map, and every
      literal is already fixed; a normaliser leaves such a tree as it is. */
  lemma {:induction false} CanonIsRenaming(n: Node, m: map<Value, string>, g: Value -> Value)
    requires forall v :: g(v) == if v in m then StrVal(m[v]) else v
    ensures SameUpToLiterals(Canon(n, m), Rename(n, g))
    decreases n
  {
    forall k | 0 <= k < |n.children|
      ensures SameUpToLiterals(Canon(n, m).children[k], Rename(n, g).children[k])
    {
      CanonIsRenaming(n.children[k], m, g);
    }
  }

  /** Normalisation is idempotent. */
  lemma NormalizeIdempotent(t: Option<Node>)
    ensures NormalizeTree(NormalizeTree(t)) == NormalizeTree(t)
  {
    if t.Some? {
      var n := t.value;
      var m := NormalizeNode(n, Fresh).1.varMap;
      NormalizeIsCanon(n, Fresh);
      NormalizeNamesInPreOrder(n, Fresh);
      AssignKeepsInv(Idents(n), Fresh);
      var g: Value -> Value := v => if v in m then StrVal(m[v]) else v;
      CanonIsRenaming(n, m, g);
      NormalizeIgnoresLiterals(Canon(n, m), Rename(n, g), Fresh);
      NormalizeIgnoresRenaming(n, g, Idents(n), Fresh, Fresh);
    }
  }
}
