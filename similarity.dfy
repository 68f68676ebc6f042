/** `calculate_similarity`: a percentage derived from the tree edit distance
    between the normalised trees, scaled by the larger original tree. */
module Similarity {
  import opened Values
  import opened Ast
  import opened Distance
  import opened Normalize
  import opened Parser

  /** Python's `max(0.0, min(100.0, x))`. */
  function Clamp(x: real): (r: real)
    ensures 0.0 <= r <= 100.0
    ensures 0.0 <= x <= 100.0 ==> r == x
    ensures x < 0.0 ==> r == 0.0
    ensures x > 100.0 ==> r == 100.0
  {
    if x > 100.0 then 100.0 else if x < 0.0 then 0.0 else x
  }

  function Max(a: nat, b: nat): nat
  {
    if a >= b then a else b
  }

  function Min(a: nat, b: nat): nat
  {
    if a <= b then a else b
  }

  /** The percentage for two trees, either of which may be absent. */
  function SimilarityOf(ast1: Option<Node>, ast2: Option<Node>): (r: real)
    ensures 0.0 <= r <= 100.0
    ensures ast1.None? || ast2.None? ==> r == 0.0
  {
    var size1 := SubtreeSize(ast1);
    var size2 := SubtreeSize(ast2);
    if size1 == 0 && size2 == 0 then 0.0
    else if size1 == 0 || size2 == 0 then 0.0
    else
      Score(TreeDistance(NormalizeTree(ast1), NormalizeTree(ast2)), Max(size1, size2))
  }

  /** `(1 - distance / max_size) * 100`, clamped. */
  function Score(distance: nat, maxSize: nat): (r: real)
    requires maxSize > 0
    ensures 0.0 <= r <= 100.0
  {
    Clamp((1.0 - distance as real / maxSize as real) * 100.0)
  }

  /** The score is 100% exactly when the distance is zero. */
  lemma ScoreFull(distance: nat, maxSize: nat)
    requires maxSize > 0
    ensures Score(distance, maxSize) == 100.0 <==> distance == 0
  {
    if distance > 0 {
      assert distance as real / maxSize as real > 0.0;
    }
  }

  /** A larger distance never gives a higher score. */
  lemma ScoreMonotone(d1: nat, d2: nat, maxSize: nat)
    requires maxSize > 0 && d1 >= d2
    ensures Score(d1, maxSize) <= Score(d2, maxSize)
  {
    var m := maxSize as real;
    assert d1 as real / m >= d2 as real / m;
  }

  /** The score of a distance equal to the size gap is the size ratio:
      `minSize / maxSize` of 100%. */
  lemma ScoreOfSizeGap(minSize: nat, maxSize: nat)
    requires 0 < minSize <= maxSize
    ensures Score(maxSize - minSize, maxSize) * maxSize as real == 100.0 * minSize as real
  {
    var d, m := (maxSize - minSize) as real, maxSize as real;
    var q := d / m;
    assert q * m == d;
    var x := (1.0 - q) * 100.0;
    assert x * m == 100.0 * m - 100.0 * (q * m);
    assert 0.0 <= q <= 1.0;
  }

  /** For two present trees the score is that of the distance between their
      normal forms. */
  lemma SimilarityOfPresent(n1: Node, n2: Node)
    ensures SimilarityOf(Some(n1), Some(n2))
            == Score(Dist(NormalizeNode(n1, Fresh).0, NormalizeNode(n2, Fresh).0), Max(Size(n1), Size(n2)))
  {
  }

  method CalculateSimilarity(ast1: Option<Node>, ast2: Option<Node>) returns (similarity: real)
    ensures similarity == SimilarityOf(ast1, ast2)
  {
    var size1 := SubtreeSize(ast1);
    var size2 := SubtreeSize(ast2);
    if size1 == 0 && size2 == 0 {
      return 0.0;
    }
    if size1 == 0 || size2 == 0 {
      return 0.0;
    }
    var normalizer1 := new ASTNormalizer();
    var normalizedAst1 := normalizer1.Normalize(ast1);
    var normalizer2 := new ASTNormalizer();
    var normalizedAst2 := normalizer2.Normalize(ast2);
    var distance := TreeEditDistance(normalizedAst1, normalizedAst2);
    var maxSize := if size1 >= size2 then size1 else size2;
    similarity := Clamp((1.0 - distance as real / maxSize as real) * 100.0);
  }

  /** Every tree is 100% similar to itself. */
  lemma SimilarityOfSelf(n: Node)
    ensures SimilarityOf(Some(n), Some(n)) == 100.0
  {
    DistSelf(NormalizeNode(n, Fresh).0);
  }

  /** The score does not depend on the order of the arguments. */
  lemma SimilaritySymmetric(ast1: Option<Node>, ast2: Option<Node>)
    ensures SimilarityOf(ast1, ast2) == SimilarityOf(ast2, ast1)
  {
    if ast1.Some? && ast2.Some? {
      DistSymmetric(NormalizeNode(ast1.value, Fresh).0, NormalizeNode(ast2.value, Fresh).0);
    }
  }

  /** Two present trees score 100% exactly when their normal forms coincide. */
  lemma SimilarityFullIffSameNormalForm(n1: Node, n2: Node)
    ensures SimilarityOf(Some(n1), Some(n2)) == 100.0 <==> NormalizeTree(Some(n1)) == NormalizeTree(Some(n2))
  {
    var a := NormalizeNode(n1, Fresh).0;
    var b := NormalizeNode(n2, Fresh).0;
    DistZeroIffEqual(a, b);
    SimilarityOfPresent(n1, n2);
    ScoreFull(Dist(a, b), Max(Size(n1), Size(n2)));
  }

  /** No pair of trees scores higher than the size gap alone allows: the
      score is at most the smaller size as a percentage of the larger. */
  lemma {:induction false} SimilarityAtMostSizeRatio(n1: Node, n2: Node)
    requires Size(n1) <= Size(n2)
    ensures SimilarityOf(Some(n1), Some(n2)) <= Score(Size(n2) - Size(n1), Size(n2))
  {
    var d := NormalFormsAtLeastSizeGap(n1, n2, Size(n2) - Size(n1));
  }


  /** The distance `d` behind the score of two present trees, the second
      the larger, is at least their size gap. */
  lemma {:induction false} NormalFormsAtLeastSizeGap(n1: Node, n2: Node, gap: nat) returns (d: nat)
    requires Size(n1) + gap == Size(n2)
    ensures SimilarityOf(Some(n1), Some(n2)) == Score(d, Size(n2))
    ensures d >= gap
    ensures SimilarityOf(Some(n1), Some(n2)) <= Score(gap, Size(n2))
  {
    assert Max(Size(n1), Size(n2)) == Size(n2);
    d := Dist(NormalizeNode(n1, Fresh).0, NormalizeNode(n2, Fresh).0);
    SimilarityOfPresent(n1, n2);
    NormalizePreservesShape(n1, Fresh);
    NormalizePreservesShape(n2, Fresh);
    DistAtLeastSizeGap(NormalizeNode(n1, Fresh).0, NormalizeNode(n2, Fresh).0);
    ScoreMonotone(d, gap, Size(n2));
  }

  /** Renaming the identifiers of one program injectively leaves its score
      against any other program unchanged. */
  lemma SimilarityIgnoresRenaming(ast1: Option<Node>, ast2: Option<Node>, f: Value -> Value)
    requires ast2.Some? ==> InjectiveOn(f, Idents(ast2.value))
    ensures SimilarityOf(ast1, RenameTree(ast2, f)) == SimilarityOf(ast1, ast2)
  {
    NormalizeTreeIgnoresRenaming(ast2, f);
    if ast2.Some? {
      RenameShape(ast2.value, f);
      SameShapeSize(ast2.value, Rename(ast2.value, f));
    }
  }

  /** Changing the constants of one program leaves its score unchanged. */
  lemma SimilarityIgnoresLiterals(ast1: Option<Node>, n2: Node, n2': Node)
    requires SameUpToLiterals(n2, n2')
    ensures SimilarityOf(ast1, Some(n2)) == SimilarityOf(ast1, Some(n2'))
  {
    NormalizeIgnoresLiterals(n2, n2', Fresh);
    SameUpToLiteralsShape(n2, n2');
    SameShapeSize(n2, n2');
  }

  /** What `compare_code` returns: the score and the two trees, a tree being
      None when its text does not parse. */
  datatype Comparison = Comparison(similarity: real, ast1: Option<Node>, ast2: Option<Node>)

  /** `compare_code`: parses both texts and scores the trees; a text that does
      not parse scores 0, and a text that parses scores 100 against itself. */
  method CompareCode(code1: string, code2: string) returns (result: Comparison)
    ensures result == Comparison(SimilarityOf(ParseCode(code1), ParseCode(code2)), ParseCode(code1), ParseCode(code2))
    ensures 0.0 <= result.similarity <= 100.0
    ensures result.ast1.None? || result.ast2.None? ==> result.similarity == 0.0
    ensures code1 == code2 && result.ast1.Some? ==> result.similarity == 100.0
  {
    var ast1 := ParseCode(code1);
    var ast2 := ParseCode(code2);
    var similarity := CalculateSimilarity(ast1, ast2);
    if code1 == code2 && ast1.Some? {
      SimilarityOfSelf(ast1.value);
    }
    result := Comparison(similarity, ast1, ast2);
  }
}
