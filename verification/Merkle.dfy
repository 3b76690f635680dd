/** The transparency log's Merkle tree (RFC 6962, sections 2.1 and 2.1.1):
    the recursive tree and prover, the iterative inclusion verifier, and the
    theorems that connect them in both directions. */

module Bits {

  /** `x >> k` on non-negative 64-bit values. */
  function Shr(x: nat, k: nat): nat
    decreases k
  {
    if k == 0 then x else Shr(x / 2, k - 1)
  }

  /** Bitwise exclusive or. */
  function Xor(a: nat, b: nat): nat
    decreases a + b
  {
    if a == 0 && b == 0 then 0
    else (if a % 2 != b % 2 then 1 else 0) + 2 * Xor(a / 2, b / 2)
  }

  /** `bits.Len64`: how many bits it takes to write x. */
  function Len(x: nat): nat {
    if x == 0 then 0 else 1 + Len(x / 2)
  }

  /** `bits.OnesCount64`: how many bits of x are set. */
  function OnesCount(x: nat): nat {
    if x == 0 then 0 else x % 2 + OnesCount(x / 2)
  }

  function Pow2(k: nat): (p: nat)
    ensures p >= 1
  {
    if k == 0 then 1 else 2 * Pow2(k - 1)
  }

  lemma {:induction false} XorZero(a: nat, b: nat)
    ensures Xor(a, b) == 0 <==> a == b
    decreases a + b
  {
    if !(a == 0 && b == 0) {
      XorZero(a / 2, b / 2);
    }
  }

  /** The number of inner steps is the least m at which the two shifted
      indices agree. */
  lemma {:induction false} InnerIsLeast(a: nat, b: nat, m: nat)
    ensures Len(Xor(a, b)) <= m <==> Shr(a, m) == Shr(b, m)
    decreases m
  {
    XorZero(a, b);
    if m > 0 && a != b {
      assert Xor(a, b) / 2 == Xor(a / 2, b / 2);
      InnerIsLeast(a / 2, b / 2, m - 1);
    } else if m > 0 {
      InnerIsLeast(a / 2, b / 2, m - 1);
    }
  }

  /** Below 2^k nothing is left after shifting k bits out. */
  lemma {:induction false} ShrSmall(x: nat, k: nat)
    requires x < Pow2(k)
    ensures Shr(x, k) == 0
    decreases k
  {
    if k > 0 {
      ShrSmall(x / 2, k - 1);
    }
  }

  /** A value with 2^j as its top bit: clearing that bit changes no lower bit
      and lowers every shift below j by the shifted bit. */
  lemma {:induction false} TopBit(x: nat, j: nat, k: nat)
    requires Pow2(j) <= x < Pow2(j + 1)
    requires k <= j
    ensures Shr(x, k) == Shr(x - Pow2(j), k) + Pow2(j - k)
    decreases k
  {
    if k > 0 {
      assert Pow2(j) == 2 * Pow2(j - 1);
      assert x / 2 - Pow2(j - 1) == (x - Pow2(j)) / 2;
      TopBit(x / 2, j - 1, k - 1);
    }
  }

  lemma {:induction false} OnesTop(x: nat, j: nat)
    requires x < Pow2(j)
    ensures OnesCount(x + Pow2(j)) == OnesCount(x) + 1
    decreases j
  {
    if j == 0 {
      assert x == 0 && OnesCount(1) == 1 + OnesCount(0);
    } else {
      assert (x + Pow2(j)) / 2 == x / 2 + Pow2(j - 1);
      assert (x + Pow2(j)) % 2 == x % 2;
      OnesTop(x / 2, j - 1);
    }
  }
}

module Merkle {
  import opened Wrappers
  import opened Primitives
  import opened Bits

  ghost predicate AllHashSized(hs: seq<Bytes>) {
    forall k :: 0 <= k < |hs| ==> |hs[k]| == HASH_SIZE
  }

  function LeafHash(sha: Hasher, body: Bytes): Bytes {
    sha([0] + body)
  }

  function HashChildren(sha: Hasher, left: Bytes, right: Bytes): Bytes {
    sha([1] + left + right)
  }

  function LeafHashes(sha: Hasher, bodies: seq<Bytes>): (hs: seq<Bytes>)
    ensures |hs| == |bodies|
    ensures forall k :: 0 <= k < |hs| ==> hs[k] == LeafHash(sha, bodies[k])
  {
    seq(|bodies|, k requires 0 <= k < |bodies| => LeafHash(sha, bodies[k]))
  }

  // ----- the recursive tree and its prover

  function SplitFrom(k: nat, n: nat): nat
    requires 1 <= k < n
    decreases n - k
  {
    if 2 * k < n then SplitFrom(2 * k, n) else k
  }

  /** The size of the left subtree. */
  function Split(n: nat): (k: nat)
    requires n >= 2
    ensures 1 <= k < n <= 2 * k
  {
    SplitFromBounds(1, n);
    SplitFrom(1, n)
  }

  lemma {:induction false} SplitFromBounds(k: nat, n: nat)
    requires 1 <= k < n
    ensures 1 <= SplitFrom(k, n) < n <= 2 * SplitFrom(k, n)
    decreases n - k
  {
    if 2 * k < n {
      SplitFromBounds(2 * k, n);
    }
  }

  /** A split is a power of two; with `Split`'s own bounds, the largest one
      strictly below n. */
  lemma {:induction false} SplitFromPow2(e: nat, n: nat) returns (j: nat)
    requires Pow2(e) < n
    ensures SplitFrom(Pow2(e), n) == Pow2(j)
    decreases n - Pow2(e)
  {
    j := e;
    if 2 * Pow2(e) < n {
      assert Pow2(e + 1) == 2 * Pow2(e);
      j := SplitFromPow2(e + 1, n);
    }
  }

  lemma SplitIsPow2(n: nat) returns (j: nat)
    requires n >= 2
    ensures Split(n) == Pow2(j) && Pow2(j) < n <= Pow2(j + 1)
  {
    assert Pow2(0) == 1;
    j := SplitFromPow2(0, n);
    assert Split(n) == SplitFrom(1, n);
    assert Pow2(j + 1) == 2 * Pow2(j);
  }

  lemma {:induction false} Pow2Strict(a: nat, b: nat)
    requires a < b
    ensures 2 * Pow2(a) <= Pow2(b)
    decreases b
  {
    if a < b - 1 {
      Pow2Strict(a, b - 1);
    }
  }

  /** No power of two lies strictly between the split and n. */
  lemma SplitIsLargest(n: nat, e: nat)
    requires n >= 2 && Pow2(e) < n
    ensures Pow2(e) <= Split(n)
  {
    var j := SplitIsPow2(n);
    if e > j {
      Pow2Strict(j, e);
    } else if e < j {
      Pow2Strict(e, j);
    }
  }

  /** The doubling loop of the source computes the split. */
  method ComputeSplit(n: nat) returns (k: nat)
    requires n >= 2
    ensures k == Split(n)
  {
    k := 1;
    while k * 2 < n
      invariant 1 <= k < n
      invariant SplitFrom(k, n) == SplitFrom(1, n)
    {
      k := k * 2;
    }
  }

  function SubtreeRoot(sha: Hasher, leaves: seq<Bytes>): Bytes {
    if |leaves| == 0 then sha([])
    else if |leaves| == 1 then leaves[0]
    else
      var k := Split(|leaves|);
      HashChildren(sha, SubtreeRoot(sha, leaves[..k]), SubtreeRoot(sha, leaves[k..]))
  }

  function PathTo(sha: Hasher, leaves: seq<Bytes>, index: nat): seq<Bytes>
    requires index < |leaves|
    decreases |leaves|
  {
    if |leaves| <= 1 then []
    else
      var k := Split(|leaves|);
      if index < k then PathTo(sha, leaves[..k], index) + [SubtreeRoot(sha, leaves[k..])]
      else PathTo(sha, leaves[k..], index - k) + [SubtreeRoot(sha, leaves[..k])]
  }

  // ----- the meaning of a proof: RFC 6962's recursion, read top down

  /** How many siblings the path from leaf index to the root of n leaves has. */
  function PathLen(index: nat, n: nat): nat
    requires index < n
    decreases n
  {
    if n == 1 then 0
    else
      var k := Split(n);
      1 + if index < k then PathLen(index, k) else PathLen(index - k, n - k)
  }

  /** The root a tree of n leaves has when `leaf` sits at `index` and the
      siblings on its path are `hs`, innermost first. */
  function RootVia(sha: Hasher, index: nat, n: nat, leaf: Bytes, hs: seq<Bytes>): Bytes
    requires index < n && |hs| == PathLen(index, n)
    decreases n
  {
    if n == 1 then leaf
    else
      var k := Split(n);
      var rest, top := hs[..|hs| - 1], hs[|hs| - 1];
      if index < k then HashChildren(sha, RootVia(sha, index, k, leaf, rest), top)
      else HashChildren(sha, top, RootVia(sha, index - k, n - k, leaf, rest))
  }

  // ----- the iterative verifier

  function Inner(index: nat, n: nat): nat
    requires index < n
  {
    Len(Xor(index, n - 1))
  }

  function Border(index: nat, n: nat): nat
    requires index < n
  {
    OnesCount(Shr(index, Inner(index, n)))
  }

  function FoldInner(sha: Hasher, index: nat, hs: seq<Bytes>, leaf: Bytes): Bytes {
    if hs == [] then leaf
    else
      var t := |hs| - 1;
      var res := FoldInner(sha, index, hs[..t], leaf);
      if Shr(index, t) % 2 == 0 then HashChildren(sha, res, hs[t]) else HashChildren(sha, hs[t], res)
  }

  function FoldBorder(sha: Hasher, hs: seq<Bytes>, res: Bytes): Bytes {
    if hs == [] then res
    else
      var t := |hs| - 1;
      HashChildren(sha, hs[t], FoldBorder(sha, hs[..t], res))
  }

  datatype ProofError = NotInLog | WrongLength | WrongHashSize

  /** What the verifier must answer: which proofs it refuses, in the order it
      refuses them, and the root RFC 6962's recursion gives the rest. */
  ghost function Rebuild(sha: Hasher, index: int64, size: int64, leaf: Bytes, hashes: seq<Bytes>)
    : Result<Bytes, ProofError>
  {
    if index < 0 || size <= 0 || index >= size then Err(NotInLog)
    else if |hashes| != PathLen(index, size) then Err(WrongLength)
    else if !AllHashSized(hashes) then Err(WrongHashSize)
    else Ok(RootVia(sha, index, size, leaf, hashes))
  }

  /** The bit-twiddling verifier computes the recursion of RFC 6962, and
      accepts exactly the one proof length that recursion has. */
  method RootFromInclusionProof(sha: Hasher, index: int64, size: int64, leaf: Bytes, hashes: seq<Bytes>)
    returns (r: Result<Bytes, ProofError>)
    ensures r == Rebuild(sha, index, size, leaf, hashes)
  {
    if index < 0 || size <= 0 || index >= size {
      return Err(NotInLog);
    }
    var inner := Len(Xor(index, size - 1));
    var border := OnesCount(Shr(index, inner));
    InnerPlusBorder(index, size);
    if |hashes| != inner + border {
      return Err(WrongLength);
    }
    for k := 0 to |hashes|
      invariant forall j :: 0 <= j < k ==> |hashes[j]| == HASH_SIZE
    {
      if |hashes[k]| != HASH_SIZE {
        return Err(WrongHashSize);
      }
    }
    var res := leaf;
    for i := 0 to inner
      invariant res == FoldInner(sha, index, hashes[..i], leaf)
    {
      assert hashes[..i + 1][..i] == hashes[..i];
      if Shr(index, i) % 2 == 0 {
        res := HashChildren(sha, res, hashes[i]);
      } else {
        res := HashChildren(sha, hashes[i], res);
      }
    }
    ghost var folded := res;
    var run := hashes[inner..];
    for i := 0 to |run|
      invariant res == FoldBorder(sha, run[..i], folded)
    {
      assert run[..i + 1][..i] == run[..i];
      res := HashChildren(sha, run[i], res);
    }
    assert run[..|run|] == run;
    FoldIsRecursion(sha, index, size, leaf, hashes);
    return Ok(res);
  }

  // ----- fold and recursion agree

  lemma {:induction false} ShrBound(x: nat, j: nat, k: nat)
    requires x < Pow2(j) && k <= j
    ensures Shr(x, k) < Pow2(j - k)
    decreases k
  {
    if k > 0 {
      ShrBound(x / 2, j - 1, k - 1);
    }
  }

  lemma SplitOfPow2(j: nat)
    requires j >= 1
    ensures Pow2(j) >= 2 && Split(Pow2(j)) == Pow2(j - 1)
  {
    var e := SplitIsPow2(Pow2(j));
    if e < j - 1 {
      Pow2Strict(e + 1, j);
    } else if e > j - 1 {
      assert e == j || e > j;
      if e > j {
        Pow2Strict(j, e);
      }
    }
  }

  lemma {:induction false} LowBitsOnly(sha: Hasher, index: nat, j: nat, hs: seq<Bytes>, leaf: Bytes)
    requires Pow2(j) <= index < Pow2(j + 1) && |hs| <= j
    ensures FoldInner(sha, index, hs, leaf) == FoldInner(sha, index - Pow2(j), hs, leaf)
    decreases |hs|
  {
    if hs != [] {
      var t := |hs| - 1;
      LowBitsOnly(sha, index, j, hs[..t], leaf);
      TopBit(index, j, t);
      assert Pow2(j - t) == 2 * Pow2(j - t - 1);
    }
  }

  lemma {:induction false} FullTreeLen(index: nat, j: nat)
    requires index < Pow2(j)
    ensures PathLen(index, Pow2(j)) == j
    decreases j
  {
    if j > 0 {
      SplitOfPow2(j);
      var k := Pow2(j - 1);
      FullTreeLen(if index < k then index else index - k, j - 1);
    }
  }

  lemma FoldInnerStep(sha: Hasher, index: nat, hs: seq<Bytes>, top: Bytes, leaf: Bytes)
    ensures var res := FoldInner(sha, index, hs, leaf);
            FoldInner(sha, index, hs + [top], leaf)
            == if Shr(index, |hs|) % 2 == 0 then HashChildren(sha, res, top) else HashChildren(sha, top, res)
  {
    assert (hs + [top])[..|hs|] == hs;
  }

  /** In a full tree of 2^j leaves every step is an inner one. */
  lemma {:induction false} FullTree(sha: Hasher, index: nat, j: nat, leaf: Bytes, hs: seq<Bytes>)
    requires index < Pow2(j) && |hs| == j == PathLen(index, Pow2(j))
    ensures RootVia(sha, index, Pow2(j), leaf, hs) == FoldInner(sha, index, hs, leaf)
    decreases j
  {
    if j > 0 {
      var i' := if index < Pow2(j - 1) then index else index - Pow2(j - 1);
      var rest, top := hs[..j - 1], hs[j - 1];
      FullTreeLen(i', j - 1);
      FullTree(sha, i', j - 1, leaf, rest);
      assert hs == rest + [top];
      FullTreeTop(sha, index, j - 1, leaf, rest, top);
    }
  }

  lemma FullTreeTop(sha: Hasher, index: nat, j: nat, leaf: Bytes, rest: seq<Bytes>, top: Bytes)
    requires index < Pow2(j + 1) && |rest| == j
    requires var i' := if index < Pow2(j) then index else index - Pow2(j);
             PathLen(i', Pow2(j)) == j && RootVia(sha, i', Pow2(j), leaf, rest) == FoldInner(sha, i', rest, leaf)
    ensures PathLen(index, Pow2(j + 1)) == j + 1
    ensures RootVia(sha, index, Pow2(j + 1), leaf, rest + [top]) == FoldInner(sha, index, rest + [top], leaf)
  {
    SplitOfPow2(j + 1);
    RootViaSnoc(sha, index, Pow2(j + 1), leaf, rest, top);
    FoldInnerStep(sha, index, rest, top, leaf);
    FullTreeBit(sha, index, j, leaf, rest);
  }

  /** The top bit of an index picks the half it lies in; the fold below it
      does not see that bit. */
  lemma FullTreeBit(sha: Hasher, index: nat, j: nat, leaf: Bytes, hs: seq<Bytes>)
    requires index < Pow2(j + 1) && |hs| == j
    ensures index < Pow2(j) ==> Shr(index, j) == 0
    ensures index >= Pow2(j) ==> Shr(index, j) == 1
    ensures index >= Pow2(j) ==> FoldInner(sha, index, hs, leaf) == FoldInner(sha, index - Pow2(j), hs, leaf)
  {
    if index < Pow2(j) {
      ShrSmall(index, j);
    } else {
      TopBit(index, j, j);
      ShrSmall(index - Pow2(j), j);
      LowBitsOnly(sha, index, j, hs, leaf);
    }
  }

  /** A leaf left of the split: the whole path is inner. */
  lemma LeftOfSplit(index: nat, n: nat, j: nat)
    requires n >= 2 && Pow2(j) < n <= Pow2(j + 1) && index < Pow2(j)
    ensures Inner(index, n) == j + 1 && Border(index, n) == 0
    ensures Shr(index, j) == 0
  {
    assert Pow2(j + 1) == 2 * Pow2(j);
    ShrSmall(index, j);
    ShrSmall(index, j + 1);
    ShrSmall(n - 1, j + 1);
    TopBit(n - 1, j, j);
    InnerIsLeast(index, n - 1, j);
    InnerIsLeast(index, n - 1, j + 1);
  }

  lemma AgreeBelowTop(a: nat, b: nat, j: nat, m: nat)
    requires Pow2(j) <= a < Pow2(j + 1) && Pow2(j) <= b < Pow2(j + 1) && m <= j
    ensures Shr(a, m) == Shr(b, m) <==> Shr(a - Pow2(j), m) == Shr(b - Pow2(j), m)
  {
    TopBit(a, j, m);
    TopBit(b, j, m);
  }

  lemma InnerBelowTop(a: nat, b: nat, j: nat, m: nat)
    requires Pow2(j) <= a < Pow2(j + 1) && Pow2(j) <= b < Pow2(j + 1) && m <= j
    ensures Len(Xor(a, b)) <= m <==> Len(Xor(a - Pow2(j), b - Pow2(j))) <= m
  {
    AgreeBelowTop(a, b, j, m);
    InnerIsLeast(a, b, m);
    InnerIsLeast(a - Pow2(j), b - Pow2(j), m);
  }

  lemma InnerAtMost(a: nat, b: nat, j: nat)
    requires a < Pow2(j) && b < Pow2(j)
    ensures Len(Xor(a, b)) <= j
  {
    ShrSmall(a, j);
    ShrSmall(b, j);
    InnerIsLeast(a, b, j);
  }

  /** A leaf right of the split: the same inner run as in the right subtree,
      and one border step more. */
  lemma RightOfSplit(index: nat, n: nat, j: nat)
    requires n >= 2 && Pow2(j) < n <= Pow2(j + 1) && Pow2(j) <= index < n
    ensures Inner(index, n) == Inner(index - Pow2(j), n - Pow2(j)) <= j
    ensures Border(index, n) == Border(index - Pow2(j), n - Pow2(j)) + 1
  {
    SameInner(index, n, j);
    OneMoreBorder(index, n, j, Inner(index, n));
  }

  lemma SameInner(index: nat, n: nat, j: nat)
    requires n >= 2 && Pow2(j) < n <= Pow2(j + 1) && Pow2(j) <= index < n
    ensures Inner(index, n) == Inner(index - Pow2(j), n - Pow2(j)) <= j
  {
    var inner := Inner(index - Pow2(j), n - Pow2(j));
    InnerAtMost(index - Pow2(j), n - Pow2(j) - 1, j);
    InnerBelowTop(index, n - 1, j, inner);
    if inner > 0 {
      InnerBelowTop(index, n - 1, j, inner - 1);
    }
  }

  lemma OneMoreBorder(index: nat, n: nat, j: nat, inner: nat)
    requires n >= 2 && Pow2(j) <= index < Pow2(j + 1) && index < n && inner <= j
    requires Inner(index, n) == Inner(index - Pow2(j), n - Pow2(j)) == inner
    ensures Border(index, n) == Border(index - Pow2(j), n - Pow2(j)) + 1
  {
    var k := Pow2(j);
    TopBit(index, j, inner);
    ShrBound(index - k, j, inner);
    OnesTop(Shr(index - k, inner), j - inner);
  }

  /** The length the verifier demands is the length of the path. */
  lemma {:induction false} InnerPlusBorder(index: nat, n: nat)
    requires index < n
    ensures PathLen(index, n) == Inner(index, n) + Border(index, n)
    decreases n
  {
    if n == 1 {
      XorZero(index, 0);
    } else {
      var j := SplitIsPow2(n);
      if index < Pow2(j) {
        LeftOfSplit(index, n, j);
        FullTreeLen(index, j);
      } else {
        RightOfSplit(index, n, j);
        InnerPlusBorder(index - Pow2(j), n - Pow2(j));
      }
    }
  }

  lemma FoldLeft(sha: Hasher, index: nat, n: nat, j: nat, leaf: Bytes, hs: seq<Bytes>)
    requires n >= 2 && Pow2(j) == Split(n) && n <= Pow2(j + 1) && index < Pow2(j)
    requires |hs| == PathLen(index, n)
    ensures |hs| == Inner(index, n)
    ensures FoldInner(sha, index, hs, leaf) == RootVia(sha, index, n, leaf, hs)
  {
    LeftOfSplit(index, n, j);
    FullTreeLen(index, j);
    FullTree(sha, index, j, leaf, hs[..j]);
  }

  lemma FoldRight(sha: Hasher, index: nat, j: nat, leaf: Bytes, hs: seq<Bytes>, inner: nat)
    requires Pow2(j) <= index < Pow2(j + 1) && inner <= j && inner < |hs|
    ensures var t := |hs| - 1;
            FoldBorder(sha, hs[inner..], FoldInner(sha, index, hs[..inner], leaf))
            == HashChildren(sha, hs[t],
                 FoldBorder(sha, hs[..t][inner..], FoldInner(sha, index - Pow2(j), hs[..t][..inner], leaf)))
  {
    var t := |hs| - 1;
    assert hs[..t][..inner] == hs[..inner];
    assert hs[inner..][..t - inner] == hs[..t][inner..];
    LowBitsOnly(sha, index, j, hs[..inner], leaf);
  }

  /** For every size, power of two or not, folding a path the iterative way
      is the recursion. */
  lemma {:induction false} FoldIsRecursion(sha: Hasher, index: nat, n: nat, leaf: Bytes, hs: seq<Bytes>)
    requires index < n && |hs| == PathLen(index, n)
    ensures |hs| == Inner(index, n) + Border(index, n)
    ensures var inner := Inner(index, n);
            FoldBorder(sha, hs[inner..], FoldInner(sha, index, hs[..inner], leaf))
            == RootVia(sha, index, n, leaf, hs)
    decreases n
  {
    InnerPlusBorder(index, n);
    var inner := Inner(index, n);
    if n == 1 {
      XorZero(index, 0);
    } else {
      var j := SplitIsPow2(n);
      if index < Pow2(j) {
        FoldLeft(sha, index, n, j, leaf, hs);
        assert hs[..inner] == hs && hs[inner..] == [];
      } else {
        RightOfSplit(index, n, j);
        FoldIsRecursion(sha, index - Pow2(j), n - Pow2(j), leaf, hs[..|hs| - 1]);
        FoldRight(sha, index, j, leaf, hs, inner);
      }
    }
  }

  // ----- completeness and soundness

  lemma RootSized(sha: Hasher, leaves: seq<Bytes>)
    requires IsSha256(sha) && AllHashSized(leaves)
    ensures |SubtreeRoot(sha, leaves)| == HASH_SIZE
  {
  }

  lemma {:induction false} PathSized(sha: Hasher, leaves: seq<Bytes>, index: nat)
    requires index < |leaves| && IsSha256(sha) && AllHashSized(leaves)
    ensures AllHashSized(PathTo(sha, leaves, index))
    decreases |leaves|
  {
    if |leaves| > 1 {
      var k := Split(|leaves|);
      RootSized(sha, leaves[..k]);
      RootSized(sha, leaves[k..]);
      if index < k {
        PathSized(sha, leaves[..k], index);
      } else {
        PathSized(sha, leaves[k..], index - k);
      }
    }
  }

  /** One level of the tree, the path, and the leaf that both follow. */
  lemma PathStep(sha: Hasher, leaves: seq<Bytes>, index: nat)
    requires index < |leaves| && |leaves| >= 2
    ensures var k := Split(|leaves|);
            var (left, right) := (SubtreeRoot(sha, leaves[..k]), SubtreeRoot(sha, leaves[k..]));
            && SubtreeRoot(sha, leaves) == HashChildren(sha, left, right)
            && (index < k ==> leaves[index] == leaves[..k][index]
                              && PathTo(sha, leaves, index) == PathTo(sha, leaves[..k], index) + [right])
            && (index >= k ==> leaves[index] == leaves[k..][index - k]
                               && PathTo(sha, leaves, index) == PathTo(sha, leaves[k..], index - k) + [left])
  {
  }

  lemma RootViaSnoc(sha: Hasher, index: nat, n: nat, leaf: Bytes, rest: seq<Bytes>, top: Bytes)
    requires index < n && n >= 2
    requires |rest| == if index < Split(n) then PathLen(index, Split(n)) else PathLen(index - Split(n), n - Split(n))
    ensures PathLen(index, n) == |rest| + 1
    ensures RootVia(sha, index, n, leaf, rest + [top])
            == if index < Split(n) then HashChildren(sha, RootVia(sha, index, Split(n), leaf, rest), top)
               else HashChildren(sha, top, RootVia(sha, index - Split(n), n - Split(n), leaf, rest))
  {
    assert (rest + [top])[..|rest|] == rest;
  }

  ghost predicate Rebuilds(sha: Hasher, leaves: seq<Bytes>, index: nat)
    requires index < |leaves|
  {
    var path := PathTo(sha, leaves, index);
    |path| == PathLen(index, |leaves|)
    && RootVia(sha, index, |leaves|, leaves[index], path) == SubtreeRoot(sha, leaves)
  }

  lemma RebuildsLeft(sha: Hasher, leaves: seq<Bytes>, index: nat)
    requires |leaves| >= 2 && index < Split(|leaves|) && Rebuilds(sha, leaves[..Split(|leaves|)], index)
    ensures Rebuilds(sha, leaves, index)
  {
    var k := Split(|leaves|);
    PathStep(sha, leaves, index);
    RootViaSnoc(sha, index, |leaves|, leaves[index], PathTo(sha, leaves[..k], index), SubtreeRoot(sha, leaves[k..]));
  }

  lemma RebuildsRight(sha: Hasher, leaves: seq<Bytes>, index: nat)
    requires |leaves| >= 2 && Split(|leaves|) <= index < |leaves|
    requires Rebuilds(sha, leaves[Split(|leaves|)..], index - Split(|leaves|))
    ensures Rebuilds(sha, leaves, index)
  {
    var k := Split(|leaves|);
    var right := leaves[k..];
    var path, top := PathTo(sha, right, index - k), SubtreeRoot(sha, leaves[..k]);
    PathStep(sha, leaves, index);
    assert |right| == |leaves| - k && leaves[index] == right[index - k];
    RootViaSnoc(sha, index, |leaves|, right[index - k], path, top);
  }

  lemma {:induction false} PathRebuilds(sha: Hasher, leaves: seq<Bytes>, index: nat)
    requires index < |leaves|
    ensures Rebuilds(sha, leaves, index)
    decreases |leaves|
  {
    if |leaves| > 1 {
      var k := Split(|leaves|);
      if index < k {
        PathRebuilds(sha, leaves[..k], index);
        RebuildsLeft(sha, leaves, index);
      } else {
        PathRebuilds(sha, leaves[k..], index - k);
        RebuildsRight(sha, leaves, index);
      }
    }
  }

  /** Completeness: the prover's path has the one length the verifier takes
      and rebuilds the root of the tree it was read from. */
  lemma PathRebuildsRoot(sha: Hasher, leaves: seq<Bytes>, index: nat)
    requires index < |leaves|
    ensures |PathTo(sha, leaves, index)| == PathLen(index, |leaves|) == Inner(index, |leaves|) + Border(index, |leaves|)
    ensures RootVia(sha, index, |leaves|, leaves[index], PathTo(sha, leaves, index)) == SubtreeRoot(sha, leaves)
  {
    InnerPlusBorder(index, |leaves|);
    PathRebuilds(sha, leaves, index);
  }

  /** Two pairs of hash-sized children with one parent are the same pair, or
      their preimages collide. */
  lemma ChildrenBind(sha: Hasher, a: Bytes, b: Bytes, c: Bytes, d: Bytes) returns (col: Collision)
    requires |a| == |c|
    requires HashChildren(sha, a, b) == HashChildren(sha, c, d)
    ensures (a == c && b == d) || col.Breaks(sha)
  {
    var x, y := [1] + a + b, [1] + c + d;
    col := Collision(x, y);
    if x == y {
      assert x[1..][..|a|] == a && y[1..][..|c|] == c;
      assert x[1..][|a|..] == b && y[1..][|c|..] == d;
    }
  }

  /** A leaf is never an interior node, or their preimages collide. */
  lemma LeafIsNoNode(sha: Hasher, body: Bytes, left: Bytes, right: Bytes) returns (col: Collision)
    requires LeafHash(sha, body) == HashChildren(sha, left, right)
    ensures col.Breaks(sha)
  {
    col := Collision([0] + body, [1] + left + right);
    assert ([0] + body)[0] == 0 && ([1] + left + right)[0] == 1;
  }

  lemma {:induction false} RootViaSized(sha: Hasher, index: nat, n: nat, leaf: Bytes, hs: seq<Bytes>)
    requires index < n && |hs| == PathLen(index, n)
    requires IsSha256(sha) && |leaf| == HASH_SIZE
    ensures |RootVia(sha, index, n, leaf, hs)| == HASH_SIZE
  {
  }

  /** One level down: the last sibling is the other half's root, and the rest
      rebuilds this half's, or there is a collision. */
  lemma LeftHalfBinds(sha: Hasher, leaves: seq<Bytes>, index: nat, leaf: Bytes, rest: seq<Bytes>, top: Bytes, k: nat)
    returns (col: Collision)
    requires |leaves| >= 2 && index < k == Split(|leaves|) && |rest| + 1 == PathLen(index, |leaves|)
    requires IsSha256(sha) && |leaf| == HASH_SIZE && AllHashSized(leaves)
    requires RootVia(sha, index, |leaves|, leaf, rest + [top]) == SubtreeRoot(sha, leaves)
    ensures (RootVia(sha, index, k, leaf, rest) == SubtreeRoot(sha, leaves[..k]) && top == SubtreeRoot(sha, leaves[k..]))
            || col.Breaks(sha)
  {
    RootSized(sha, leaves[..k]);
    RootViaSnoc(sha, index, |leaves|, leaf, rest, top);
    col := LeftBinds(sha, index, k, leaf, rest, top, SubtreeRoot(sha, leaves[..k]), SubtreeRoot(sha, leaves[k..]));
  }

  lemma RightHalfBinds(sha: Hasher, leaves: seq<Bytes>, index: nat, leaf: Bytes, rest: seq<Bytes>, top: Bytes,
                       k: nat, right: seq<Bytes>)
    returns (col: Collision)
    requires |leaves| >= 2 && Split(|leaves|) == k <= index < |leaves| && right == leaves[k..]
    requires IsSha256(sha) && |top| == HASH_SIZE && AllHashSized(leaves) && |rest| == PathLen(index - k, |right|)
    requires PathLen(index, |leaves|) == |rest| + 1
    requires RootVia(sha, index, |leaves|, leaf, rest + [top]) == SubtreeRoot(sha, leaves)
    ensures (RootVia(sha, index - k, |right|, leaf, rest) == SubtreeRoot(sha, right)
             && top == SubtreeRoot(sha, leaves[..k])) || col.Breaks(sha)
  {
    var sub := RootVia(sha, index - k, |right|, leaf, rest);
    RootSized(sha, leaves[..k]);
    RootViaSnoc(sha, index, |leaves|, leaf, rest, top);
    col := ChildrenBind(sha, top, sub, SubtreeRoot(sha, leaves[..k]), SubtreeRoot(sha, right));
  }

  lemma LeftBinds(sha: Hasher, index: nat, n: nat, leaf: Bytes, rest: seq<Bytes>, top: Bytes, left: Bytes, right: Bytes)
    returns (col: Collision)
    requires index < n && |rest| == PathLen(index, n) && IsSha256(sha) && |leaf| == HASH_SIZE == |left|
    requires HashChildren(sha, RootVia(sha, index, n, leaf, rest), top) == HashChildren(sha, left, right)
    ensures (RootVia(sha, index, n, leaf, rest) == left && top == right) || col.Breaks(sha)
  {
    RootViaSized(sha, index, n, leaf, rest);
    col := ChildrenBind(sha, RootVia(sha, index, n, leaf, rest), top, left, right);
  }

  /** The leaf at an index of the tree, with its own path. */
  ghost predicate IsEntry(sha: Hasher, leaves: seq<Bytes>, index: nat, leaf: Bytes, hs: seq<Bytes>)
    requires index < |leaves|
  {
    leaf == leaves[index] && hs == PathTo(sha, leaves, index)
  }

  lemma EntryOfHalf(sha: Hasher, leaves: seq<Bytes>, index: nat, leaf: Bytes, rest: seq<Bytes>, k: nat)
    requires |leaves| >= 2 && Split(|leaves|) == k && index < |leaves|
    ensures index < k && IsEntry(sha, leaves[..k], index, leaf, rest) ==>
              IsEntry(sha, leaves, index, leaf, rest + [SubtreeRoot(sha, leaves[k..])])
    ensures index >= k && IsEntry(sha, leaves[k..], index - k, leaf, rest) ==>
              IsEntry(sha, leaves, index, leaf, rest + [SubtreeRoot(sha, leaves[..k])])
  {
    PathStep(sha, leaves, index);
  }

  /** Soundness of the recursion: whatever rebuilds the root of a tree is the
      leaf at that index with its own path, or exhibits a collision. */
  lemma {:induction false} RootBindsPath(sha: Hasher, leaves: seq<Bytes>, index: nat, leaf: Bytes, hs: seq<Bytes>)
    returns (col: Collision)
    requires index < |leaves| && |hs| == PathLen(index, |leaves|)
    requires IsSha256(sha) && |leaf| == HASH_SIZE && AllHashSized(leaves) && AllHashSized(hs)
    requires RootVia(sha, index, |leaves|, leaf, hs) == SubtreeRoot(sha, leaves)
    ensures IsEntry(sha, leaves, index, leaf, hs) || col.Breaks(sha)
    decreases |leaves|
  {
    col := Collision([], []);
    if |leaves| > 1 {
      var k := Split(|leaves|);
      var rest, top := hs[..|hs| - 1], hs[|hs| - 1];
      assert hs == rest + [top];
      EntryOfHalf(sha, leaves, index, leaf, rest, k);
      if index < k {
        col := LeftHalfBinds(sha, leaves, index, leaf, rest, top, k);
        if !col.Breaks(sha) {
          col := RootBindsPath(sha, leaves[..k], index, leaf, rest);
        }
      } else {
        var right := leaves[k..];
        col := RightHalfBinds(sha, leaves, index, leaf, rest, top, k, right);
        if !col.Breaks(sha) {
          col := RootBindsPath(sha, right, index - k, leaf, rest);
        }
      }
    }
  }

  /** Verifier against tree, both ways and on every input: an answer equal to
      the tree's root means the leaf at that index with its path, or a
      collision; and the leaf with its path is answered with the root. */
  lemma InclusionExact(sha: Hasher, leaves: seq<Bytes>, index: int64, leaf: Bytes, hashes: seq<Bytes>)
    returns (col: Collision)
    requires IsSha256(sha) && AllHashSized(leaves) && |leaf| == HASH_SIZE
    requires 0 < |leaves| < 0x8000_0000_0000_0000
    ensures Rebuild(sha, index, |leaves|, leaf, hashes) == Ok(SubtreeRoot(sha, leaves)) ==>
              (0 <= index < |leaves| && leaf == leaves[index] && hashes == PathTo(sha, leaves, index))
              || col.Breaks(sha)
    ensures 0 <= index < |leaves| && leaf == leaves[index] && hashes == PathTo(sha, leaves, index) ==>
              Rebuild(sha, index, |leaves|, leaf, hashes) == Ok(SubtreeRoot(sha, leaves))
  {
    col := Collision([], []);
    if 0 <= index < |leaves| {
      PathRebuildsRoot(sha, leaves, index);
      PathSized(sha, leaves, index);
      if Rebuild(sha, index, |leaves|, leaf, hashes) == Ok(SubtreeRoot(sha, leaves)) {
        col := RootBindsPath(sha, leaves, index, leaf, hashes);
      }
    }
  }

  // ----- the standard's own tree and paths, over entries

  /** Where a list of n entries is cut: at the power of two that is below n and
      at least half of it. */
  ghost predicate Halves(k: nat, n: nat) {
    1 <= k < n <= 2 * k && exists e: nat :: Pow2(e) == k
  }

  /** Section 2.1 of RFC 6962: the head of the tree over a list of entries. */
  ghost predicate TreeHead(sha: Hasher, entries: seq<Bytes>, head: Bytes)
    decreases |entries|
  {
    if |entries| == 0 then head == sha([])
    else if |entries| == 1 then head == sha([0] + entries[0])
    else exists k: nat, left: Bytes, right: Bytes ::
           Halves(k, |entries|) && TreeHead(sha, entries[..k], left) && TreeHead(sha, entries[k..], right)
           && head == sha([1] + left + right)
  }

  /** Section 2.1.1: the audit path of the entry at m, which ends with the head
      of the part that does not hold it. */
  ghost predicate AuditPath(sha: Hasher, m: nat, entries: seq<Bytes>, path: seq<Bytes>)
    requires m < |entries|
    decreases |entries|
  {
    if |entries| == 1 then path == []
    else
      && path != []
      && var (rest, top) := (path[..|path| - 1], path[|path| - 1]);
         exists k: nat ::
           Halves(k, |entries|)
           && if m < k then AuditPath(sha, m, entries[..k], rest) && TreeHead(sha, entries[k..], top)
              else AuditPath(sha, m - k, entries[k..], rest) && TreeHead(sha, entries[..k], top)
  }

  lemma HalvesAtSplit(n: nat)
    requires n >= 2
    ensures forall k: nat :: Halves(k, n) <==> k == Split(n)
  {
    var j := SplitIsPow2(n);
    forall k: nat | Halves(k, n)
      ensures k == Split(n)
    {
      var e: nat :| Pow2(e) == k;
      if e > j {
        Pow2Strict(j, e);
      } else if e < j {
        Pow2Strict(e, j);
      }
    }
  }

  lemma LeafHashesCut(sha: Hasher, entries: seq<Bytes>, k: nat)
    requires k <= |entries|
    ensures LeafHashes(sha, entries)[..k] == LeafHashes(sha, entries[..k])
    ensures LeafHashes(sha, entries)[k..] == LeafHashes(sha, entries[k..])
  {
  }

  /** The tree computed is the standard's. */
  lemma {:induction false} HeadIsRoot(sha: Hasher, entries: seq<Bytes>, head: Bytes)
    ensures TreeHead(sha, entries, head) <==> head == SubtreeRoot(sha, LeafHashes(sha, entries))
    decreases |entries|
  {
    if |entries| >= 2 {
      var k := Split(|entries|);
      HalvesAtSplit(|entries|);
      LeafHashesCut(sha, entries, k);
      var left := SubtreeRoot(sha, LeafHashes(sha, entries[..k]));
      var right := SubtreeRoot(sha, LeafHashes(sha, entries[k..]));
      forall h
        ensures TreeHead(sha, entries[..k], h) <==> h == left
        ensures TreeHead(sha, entries[k..], h) <==> h == right
      {
        HeadIsRoot(sha, entries[..k], h);
        HeadIsRoot(sha, entries[k..], h);
      }
      assert SubtreeRoot(sha, LeafHashes(sha, entries)) == HashChildren(sha, left, right);
    }
  }

  /** One level of a standard path... */
  lemma AuditLevel(sha: Hasher, m: nat, entries: seq<Bytes>, rest: seq<Bytes>, top: Bytes, k: nat)
    requires |entries| >= 2 && m < |entries| && k == Split(|entries|)
    ensures AuditPath(sha, m, entries, rest + [top])
            <==> if m < k then AuditPath(sha, m, entries[..k], rest) && TreeHead(sha, entries[k..], top)
                 else AuditPath(sha, m - k, entries[k..], rest) && TreeHead(sha, entries[..k], top)
  {
    HalvesAtSplit(|entries|);
    var path := rest + [top];
    assert path[..|path| - 1] == rest && path[|path| - 1] == top;
    if AuditPath(sha, m, entries, path) {
      var c: nat :|
        Halves(c, |entries|)
        && if m < c then AuditPath(sha, m, entries[..c], rest) && TreeHead(sha, entries[c..], top)
           else AuditPath(sha, m - c, entries[c..], rest) && TreeHead(sha, entries[..c], top);
      assert c == k;
    } else {
      assert Halves(k, |entries|);
    }
  }

  /** ...and of the prover's. */
  lemma PathLevel(sha: Hasher, m: nat, entries: seq<Bytes>, rest: seq<Bytes>, top: Bytes, k: nat)
    requires |entries| >= 2 && m < |entries| && k == Split(|entries|)
    ensures rest + [top] == PathTo(sha, LeafHashes(sha, entries), m)
            <==> if m < k then rest == PathTo(sha, LeafHashes(sha, entries[..k]), m)
                               && top == SubtreeRoot(sha, LeafHashes(sha, entries[k..]))
                 else rest == PathTo(sha, LeafHashes(sha, entries[k..]), m - k)
                      && top == SubtreeRoot(sha, LeafHashes(sha, entries[..k]))
  {
    LeafHashesCut(sha, entries, k);
    PathStep(sha, LeafHashes(sha, entries), m);
    if m < k {
      SnocSame(rest, top, PathTo(sha, LeafHashes(sha, entries[..k]), m), SubtreeRoot(sha, LeafHashes(sha, entries[k..])));
    } else {
      SnocSame(rest, top, PathTo(sha, LeafHashes(sha, entries[k..]), m - k), SubtreeRoot(sha, LeafHashes(sha, entries[..k])));
    }
  }

  /** The prover's path is the standard's. */
  lemma {:induction false} PathIsAudit(sha: Hasher, m: nat, entries: seq<Bytes>, path: seq<Bytes>)
    requires m < |entries|
    ensures AuditPath(sha, m, entries, path) <==> path == PathTo(sha, LeafHashes(sha, entries), m)
    decreases |entries|
  {
    if |entries| >= 2 && path != [] {
      var k := Split(|entries|);
      var (rest, top) := (path[..|path| - 1], path[|path| - 1]);
      assert path == rest + [top];
      AuditLevel(sha, m, entries, rest, top, k);
      PathLevel(sha, m, entries, rest, top, k);
      if m < k {
        PathIsAudit(sha, m, entries[..k], rest);
        HeadIsRoot(sha, entries[k..], top);
      } else {
        PathIsAudit(sha, m - k, entries[k..], rest);
        HeadIsRoot(sha, entries[..k], top);
      }
    }
  }

  lemma SnocSame(a: seq<Bytes>, x: Bytes, b: seq<Bytes>, y: Bytes)
    ensures a + [x] == b + [y] <==> a == b && x == y
  {
    if a + [x] == b + [y] {
      assert (a + [x])[..|a|] == a && (b + [y])[..|b|] == b;
      assert (a + [x])[|a|] == x;
    }
  }

  // ----- the tree as the prover holds it

  class Tree {
    const sha: Hasher
    var leaves: seq<Bytes>
    /** The bodies added, in order. */
    ghost var entries: seq<Bytes>

    ghost predicate Valid()
      reads this
    {
      IsSha256(sha) && leaves == LeafHashes(sha, entries)
    }

    constructor (sha: Hasher)
      requires IsSha256(sha)
      ensures Valid() && this.sha == sha && entries == []
    {
      this.sha, leaves, entries := sha, [], [];
    }

    method Add(entry: Bytes) returns (index: nat)
      requires Valid()
      modifies this
      ensures Valid() && entries == old(entries) + [entry] && index == |old(entries)|
    {
      leaves := leaves + [LeafHash(sha, entry)];
      entries := entries + [entry];
      index := |leaves| - 1;
    }

    /** A proof is given for exactly the entries the log holds. It is the
        standard's audit path, and the verifier, given the entry's own leaf hash,
        answers it with the standard's head of all of them. */
    method InclusionProof(index: int) returns (r: Result<seq<Bytes>, ProofError>)
      requires Valid() && |entries| < 0x8000_0000_0000_0000
      ensures r.Ok? <==> 0 <= index < |entries|
      ensures r.Ok? ==>
                && AuditPath(sha, index, entries, r.value)
                && var answer := Rebuild(sha, index, |entries|, LeafHash(sha, entries[index]), r.value);
                   answer.Ok? && TreeHead(sha, entries, answer.value)
    {
      if index < 0 || index >= |leaves| {
        return Err(NotInLog);
      }
      PathRebuildsRoot(sha, leaves, index);
      PathSized(sha, leaves, index);
      PathIsAudit(sha, index, entries, PathTo(sha, leaves, index));
      HeadIsRoot(sha, entries, SubtreeRoot(sha, leaves));
      return Ok(PathTo(sha, leaves, index));
    }
  }
}
