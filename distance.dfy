/** The tree distance: a relabel cost per node pair plus an ordered alignment
    of the two child lists (delete, insert or substitute one child at a time),
    computed by a dynamic program over a 2-D table. */
module Distance {
  import opened Values
  import opened Ast

  /** 1 when the two nodes differ in kind or value, else 0. */
  function RelabelCost(a: Node, b: Node): (r: nat)
    ensures r <= 1
    ensures r == 0 <==> a.kind == b.kind && a.value == b.value
  {
    if a.kind != b.kind || a.value != b.value then 1 else 0
  }

  function Min3(x: int, y: int, z: int): int
  {
    if x <= y && x <= z then x else if y <= z then y else z
  }

  /** Distance between two present nodes. */
  function Dist(a: Node, b: Node): (r: nat)
    ensures RelabelCost(a, b) <= r
    ensures a.children == [] && b.children == [] ==> r == RelabelCost(a, b)
    decreases a, b
  {
    RelabelCost(a, b) + AlignPrefix(a.children, b.children, |a.children|, |b.children|)
  }

  /** The alignment table entry `dp[i][j]`: the cheapest ordered alignment of the
      first `i` children of one side with the first `j` of the other. */
  function AlignPrefix(cs1: seq<Node>, cs2: seq<Node>, i: nat, j: nat): (r: nat)
    requires i <= |cs1| && j <= |cs2|
    ensures i == 0 ==> r == PrefixSize(cs2, j)
    ensures j == 0 ==> r == PrefixSize(cs1, i)
    decreases cs1, cs2, i + j
  {
    if i == 0 then PrefixSize(cs2, j)
    else if j == 0 then PrefixSize(cs1, i)
    else Min3(AlignPrefix(cs1, cs2, i - 1, j) + Size(cs1[i - 1]),
              AlignPrefix(cs1, cs2, i, j - 1) + Size(cs2[j - 1]),
              AlignPrefix(cs1, cs2, i - 1, j - 1) + Dist(cs1[i - 1], cs2[j - 1]))
  }

  /** `min_children_distance` as a value: the whole table's last entry. */
  function Align(cs1: seq<Node>, cs2: seq<Node>): (r: nat)
    ensures cs1 == [] ==> r == SumSizes(cs2)
    ensures cs2 == [] ==> r == SumSizes(cs1)
  {
    AlignPrefix(cs1, cs2, |cs1|, |cs2|)
  }

  /** `tree_edit_distance` on possibly absent trees. */
  function TreeDistance(t1: Option<Node>, t2: Option<Node>): (r: nat)
    ensures t1.None? ==> r == SubtreeSize(t2)
    ensures t2.None? ==> r == SubtreeSize(t1)
    ensures r <= SubtreeSize(t1) + SubtreeSize(t2)
  {
    match (t1, t2)
    case (None, None) => 0
    case (None, Some(b)) => Size(b)
    case (Some(a), None) => Size(a)
    case (Some(a), Some(b)) =>
      DistAtMostSizes(a, b);
      Dist(a, b)
  }

  // ---------------------------------------------------------------------------
  // The imperative computation
  // ---------------------------------------------------------------------------

  method TreeEditDistance(node1: Option<Node>, node2: Option<Node>) returns (result: nat)
    ensures result == TreeDistance(node1, node2)
    decreases SubtreeSize(node1) + SubtreeSize(node2), 0
  {
    if node1.None? && node2.None? {
      result := 0;
    } else if node1.None? {
      result := SubtreeSize(node2);
    } else if node2.None? {
      result := SubtreeSize(node1);
    } else {
      var n1, n2 := node1.value, node2.value;
      if n1.kind != n2.kind || n1.value != n2.value {
        var m := MinChildrenDistance(n1.children, n2.children);
        result := 1 + m;
      } else {
        result := MinChildrenDistance(n1.children, n2.children);
      }
    }
  }

  method MinChildrenDistance(children1: seq<Node>, children2: seq<Node>) returns (d: nat)
    ensures d == Align(children1, children2)
    decreases SumSizes(children1) + SumSizes(children2), 3
  {
    var len1, len2 := |children1|, |children2|;
    var dp := new int[len1 + 1, len2 + 1];
    for i := 0 to len1 + 1
      invariant forall r :: 0 <= r < i ==> dp[r, 0] == PrefixSize(children1, r)
    {
      dp[i, 0] := PrefixSize(children1, i);
    }
    for j := 0 to len2 + 1
      invariant forall r :: 1 <= r <= len1 ==> dp[r, 0] == PrefixSize(children1, r)
      invariant forall c :: 0 <= c < j ==> dp[0, c] == PrefixSize(children2, c)
    {
      dp[0, j] := PrefixSize(children2, j);
    }
    for i := 1 to len1 + 1
      invariant forall r, c {:trigger dp[r, c]} :: 0 <= r < i && 0 <= c <= len2 ==>
        dp[r, c] == AlignPrefix(children1, children2, r, c)
      invariant forall r {:trigger dp[r, 0]} :: i <= r <= len1 ==> dp[r, 0] == AlignPrefix(children1, children2, r, 0)
    {
      FillRow(dp, children1, children2, i);
    }
    d := dp[len1, len2];
  }

  /** The inner loop of the table fill: row `i`, from column 1 on, given row
      `i - 1` and the border cell `dp[i][0]`. */
  method FillRow(dp: array2<int>, children1: seq<Node>, children2: seq<Node>, i: nat)
    requires dp.Length0 == |children1| + 1 && dp.Length1 == |children2| + 1
    requires 0 < i <= |children1|
    requires forall c {:trigger dp[i - 1, c]} :: 0 <= c <= |children2| ==> dp[i - 1, c] == AlignPrefix(children1, children2, i - 1, c)
    requires dp[i, 0] == AlignPrefix(children1, children2, i, 0)
    modifies dp
    ensures forall c {:trigger dp[i, c]} :: 0 <= c <= |children2| ==> dp[i, c] == AlignPrefix(children1, children2, i, c)
    ensures forall r, c :: 0 <= r < dp.Length0 && 0 <= c < dp.Length1 && r != i ==> dp[r, c] == old(dp[r, c])
    decreases SumSizes(children1) + SumSizes(children2), 2
  {
    for j := 1 to |children2| + 1
      invariant forall c {:trigger dp[i, c]} :: 0 <= c < j ==> dp[i, c] == AlignPrefix(children1, children2, i, c)
      invariant forall r, c :: 0 <= r < dp.Length0 && 0 <= c < dp.Length1 && r != i ==> dp[r, c] == old(dp[r, c])
    {
      FillCell(dp, children1, children2, i, j);
    }
  }

  /** `dp[i][j]` from its three neighbours, deleting, inserting or aligning
      the last children of the two prefixes. */
  method FillCell(dp: array2<int>, children1: seq<Node>, children2: seq<Node>, i: nat, j: nat)
    requires dp.Length0 == |children1| + 1 && dp.Length1 == |children2| + 1
    requires 0 < i <= |children1| && 0 < j <= |children2|
    requires dp[i - 1, j] == AlignPrefix(children1, children2, i - 1, j)
    requires dp[i, j - 1] == AlignPrefix(children1, children2, i, j - 1)
    requires dp[i - 1, j - 1] == AlignPrefix(children1, children2, i - 1, j - 1)
    modifies dp
    ensures dp[i, j] == AlignPrefix(children1, children2, i, j)
    ensures forall r, c :: 0 <= r < dp.Length0 && 0 <= c < dp.Length1 && (r != i || c != j) ==> dp[r, c] == old(dp[r, c])
    decreases SumSizes(children1) + SumSizes(children2), 1
  {
    SizeAtMostSum(children1, i - 1);
    SizeAtMostSum(children2, j - 1);
    var alignCost := TreeEditDistance(Some(children1[i - 1]), Some(children2[j - 1]));
    AlignStep(children1, children2, i, j, dp[i - 1, j], dp[i, j - 1], dp[i - 1, j - 1], alignCost);
    dp[i, j] := Min3(dp[i - 1, j] + Size(children1[i - 1]),
                     dp[i, j - 1] + Size(children2[j - 1]),
                     dp[i - 1, j - 1] + alignCost);
  }

  /** An inner entry of the table in terms of its three neighbours. */
  lemma AlignUnfold(cs1: seq<Node>, cs2: seq<Node>, i: nat, j: nat)
    requires 0 < i <= |cs1| && 0 < j <= |cs2|
    ensures AlignPrefix(cs1, cs2, i, j)
            == Min3(AlignPrefix(cs1, cs2, i - 1, j) + Size(cs1[i - 1]),
                    AlignPrefix(cs1, cs2, i, j - 1) + Size(cs2[j - 1]),
                    AlignPrefix(cs1, cs2, i - 1, j - 1) + Dist(cs1[i - 1], cs2[j - 1]))
  {
  }

  /** One inner cell of the table from its three neighbours. */
  lemma AlignStep(cs1: seq<Node>, cs2: seq<Node>, i: nat, j: nat, up: int, left: int, diag: int, cost: int)
    requires 0 < i <= |cs1| && 0 < j <= |cs2|
    requires up == AlignPrefix(cs1, cs2, i - 1, j) && left == AlignPrefix(cs1, cs2, i, j - 1)
    requires diag == AlignPrefix(cs1, cs2, i - 1, j - 1) && cost == Dist(cs1[i - 1], cs2[j - 1])
    ensures AlignPrefix(cs1, cs2, i, j) == Min3(up + Size(cs1[i - 1]), left + Size(cs2[j - 1]), diag + cost)
  {
  }

  // ---------------------------------------------------------------------------
  // Properties of the distance
  // ---------------------------------------------------------------------------

  /** A tree is at distance 0 from itself. */
  lemma {:induction false} DistSelf(a: Node)
    ensures Dist(a, a) == 0
    decreases a
  {
    AlignSelf(a.children, |a.children|);
  }

  lemma {:induction false} AlignSelf(cs: seq<Node>, i: nat)
    requires i <= |cs|
    ensures AlignPrefix(cs, cs, i, i) == 0
    decreases cs, i
  {
    if i > 0 {
      AlignSelf(cs, i - 1);
      DistSelf(cs[i - 1]);
    }
  }

  /** The distance does not depend on the order of its arguments. */
  lemma {:induction false} DistSymmetric(a: Node, b: Node)
    ensures Dist(a, b) == Dist(b, a)
    decreases a, b
  {
    AlignSymmetric(a.children, b.children, |a.children|, |b.children|);
  }

  lemma {:induction false} AlignSymmetric(cs1: seq<Node>, cs2: seq<Node>, i: nat, j: nat)
    requires i <= |cs1| && j <= |cs2|
    ensures AlignPrefix(cs1, cs2, i, j) == AlignPrefix(cs2, cs1, j, i)
    decreases cs1, cs2, i + j, 1
  {
    if i > 0 && j > 0 {
      AlignSymmetricStep(cs1, cs2, i, j);
    }
  }

  /** The inner case of `AlignSymmetric`: symmetric neighbours and a
      symmetric last pair give a symmetric entry. */
  lemma AlignSymmetricStep(cs1: seq<Node>, cs2: seq<Node>, i: nat, j: nat)
    requires 0 < i <= |cs1| && 0 < j <= |cs2|
    ensures AlignPrefix(cs1, cs2, i, j) == AlignPrefix(cs2, cs1, j, i)
    decreases cs1, cs2, i + j, 0
  {
    AlignSymmetric(cs1, cs2, i - 1, j);
    AlignSymmetric(cs1, cs2, i, j - 1);
    AlignSymmetric(cs1, cs2, i - 1, j - 1);
    DistSymmetric(cs1[i - 1], cs2[j - 1]);
    AlignUnfold(cs1, cs2, i, j);
    AlignUnfold(cs2, cs1, j, i);
  }

  /** Distance 0 only between equal trees. */
  lemma {:induction false} DistZeroOnlyIfEqual(a: Node, b: Node)
    requires Dist(a, b) == 0
    ensures a == b
    decreases a, b
  {
    AlignZeroOnlyIfEqual(a.children, b.children, |a.children|, |b.children|);
    assert a.children == a.children[..|a.children|];
    assert b.children == b.children[..|b.children|];
  }

  lemma {:induction false} AlignZeroOnlyIfEqual(cs1: seq<Node>, cs2: seq<Node>, i: nat, j: nat)
    requires i <= |cs1| && j <= |cs2|
    requires AlignPrefix(cs1, cs2, i, j) == 0
    ensures i == j && cs1[..i] == cs2[..j]
    decreases cs1, cs2, i + j
  {
    if i > 0 && j > 0 {
      AlignZeroOnlyIfEqual(cs1, cs2, i - 1, j - 1);
      DistZeroOnlyIfEqual(cs1[i - 1], cs2[j - 1]);
      assert cs1[..i] == cs1[..i - 1] + [cs1[i - 1]];
      assert cs2[..j] == cs2[..j - 1] + [cs2[j - 1]];
    }
  }

  /** Distance 0 exactly between equal trees. */
  lemma DistZeroIffEqual(a: Node, b: Node)
    ensures Dist(a, b) == 0 <==> a == b
  {
    if a == b {
      DistSelf(a);
    } else if Dist(a, b) == 0 {
      DistZeroOnlyIfEqual(a, b);
    }
  }

  /** Deleting all of one side and inserting all of the other bounds the alignment. */
  lemma {:induction false} AlignAtMostSizes(cs1: seq<Node>, cs2: seq<Node>, i: nat, j: nat)
    requires i <= |cs1| && j <= |cs2|
    ensures AlignPrefix(cs1, cs2, i, j) <= PrefixSize(cs1, i) + PrefixSize(cs2, j)
    decreases i
  {
    if i > 0 && j > 0 {
      AlignAtMostSizes(cs1, cs2, i - 1, j);
    }
  }

  /** The distance never exceeds the two trees' sizes together, minus one. */
  lemma DistAtMostSizes(a: Node, b: Node)
    ensures Dist(a, b) <= Size(a) + Size(b) - 1
  {
    AlignAtMostSizes(a.children, b.children, |a.children|, |b.children|);
  }

  /** The distance is at least the difference of the two trees' sizes. */
  lemma DistAtLeastSizeGap(a: Node, b: Node)
    ensures Dist(a, b) + Size(b) >= Size(a) && Dist(a, b) + Size(a) >= Size(b)
  {
    DistAtLeastSurplus(a, b);
    DistAtLeastSurplus(b, a);
    DistSymmetric(a, b);
  }

  /** One side of `DistAtLeastSizeGap`: the nodes `a` has beyond `b`'s count
      all have to be deleted. */
  lemma {:induction false} DistAtLeastSurplus(a: Node, b: Node)
    ensures Dist(a, b) + Size(b) >= Size(a)
    decreases a, b
  {
    AlignAtLeastSurplus(a.children, b.children, |a.children|, |b.children|);
  }

  lemma {:induction false} AlignAtLeastSurplus(cs1: seq<Node>, cs2: seq<Node>, i: nat, j: nat)
    requires i <= |cs1| && j <= |cs2|
    ensures AlignPrefix(cs1, cs2, i, j) + PrefixSize(cs2, j) >= PrefixSize(cs1, i)
    decreases cs1, cs2, i + j, 1
  {
    if i > 0 && j > 0 {
      AlignAtLeastSurplusStep(cs1, cs2, i, j);
    }
  }

  /** The inner case of `AlignAtLeastSurplus`. */
  lemma AlignAtLeastSurplusStep(cs1: seq<Node>, cs2: seq<Node>, i: nat, j: nat)
    requires 0 < i <= |cs1| && 0 < j <= |cs2|
    ensures AlignPrefix(cs1, cs2, i, j) + PrefixSize(cs2, j) >= PrefixSize(cs1, i)
    decreases cs1, cs2, i + j, 0
  {
    AlignAtLeastSurplus(cs1, cs2, i - 1, j);
    AlignAtLeastSurplus(cs1, cs2, i, j - 1);
    AlignAtLeastSurplus(cs1, cs2, i - 1, j - 1);
    DistAtLeastSurplus(cs1[i - 1], cs2[j - 1]);
    AlignUnfold(cs1, cs2, i, j);
  }
}
