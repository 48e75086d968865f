/** The Merkle tree over shard heads (libs/audit/src/landaudit/merkle.py). */
module MerkleRoot {
  import opened Wrappers
  import opened HashChain

  datatype ShardHead = ShardHead(shardId: int, headHash: Option<string>)

  function Decimal(n: nat): string {
    (if n < 10 then "" else Decimal(n / 10)) + ["0123456789"[n % 10]]
  }

  /** `f"{shard_id}"`. */
  function ShardText(shardId: int): string {
    if shardId < 0 then "-" + Decimal(-shardId) else Decimal(shardId)
  }

  function LeafText(h: ShardHead): string {
    ShardText(h.shardId) + ":" + OrEmpty(h.headHash)
  }

  function LeafHash(c: Crypto, h: ShardHead): string {
    c.digest(LeafText(h))
  }

  function PairHash(c: Crypto, left: string, right: string): string {
    c.digest(left + right)
  }

  // ----- the tree -----

  /** An odd level repeats its last node. */
  function Padded(level: seq<string>): seq<string>
    requires level != []
  {
    if |level| % 2 == 1 then level + [level[|level| - 1]] else level
  }

  /** The texts hashed to form the next level. */
  function PairTexts(level: seq<string>): (r: seq<string>)
    requires level != []
    ensures |r| == (|level| + 1) / 2
  {
    var p := Padded(level);
    seq(|p| / 2, i requires 0 <= i < |p| / 2 => p[2 * i] + p[2 * i + 1])
  }

  function HashAll(c: Crypto, texts: seq<string>): seq<string> {
    seq(|texts|, i requires 0 <= i < |texts| => c.digest(texts[i]))
  }

  function Root(c: Crypto, leaves: seq<string>): string
    decreases |leaves|
  {
    if leaves == [] then c.digest("")
    else if |leaves| == 1 then leaves[0]
    else Root(c, HashAll(c, PairTexts(leaves)))
  }

  /** Everything hashed on the way from the leaves to the root. */
  ghost function HashedByTree(c: Crypto, leaves: seq<string>): set<string>
    decreases |leaves|
  {
    if |leaves| <= 1 then {}
    else SetOf(PairTexts(leaves)) + HashedByTree(c, HashAll(c, PairTexts(leaves)))
  }

  lemma PaddingIsIdempotent(level: seq<string>)
    requires level != []
    ensures PairTexts(Padded(level)) == PairTexts(level)
  {
    assert Padded(Padded(level)) == Padded(level);
  }

  // ----- the tree seen from above, and the path of each leaf -----

  /** How many nodes there are `h` levels above n leaves. */
  function Width(n: nat, h: nat): (w: nat)
    ensures n >= 1 ==> w >= 1
  {
    if h == 0 then n else (Width(n, h - 1) + 1) / 2
  }

  /** How many levels there are above n leaves. */
  function Height(n: nat): nat
    requires n >= 1
  {
    if n == 1 then 0 else 1 + Height((n + 1) / 2)
  }

  /** Node `b` of level `h`: the digest of its left child and then its right one, the left one again if it has no other. */
  function Node(c: Crypto, leaves: seq<string>, h: nat, b: nat): string
    requires b < Width(|leaves|, h)
  {
    if h == 0 then leaves[b]
    else
      var left := Node(c, leaves, h - 1, 2 * b);
      var right := if 2 * b + 1 < Width(|leaves|, h - 1) then Node(c, leaves, h - 1, 2 * b + 1) else left;
      c.digest(left + right)
  }

  lemma {:induction false} WidthAbove(n: nat, h: nat)
    ensures Width((n + 1) / 2, h) == Width(n, h + 1)
  {
    if h > 0 {
      WidthAbove(n, h - 1);
    }
  }

  lemma {:induction false} OneNodeOnTop(n: nat)
    requires n >= 1
    ensures Width(n, Height(n)) == 1
    decreases n
  {
    if n > 1 {
      OneNodeOnTop((n + 1) / 2);
      WidthAbove(n, Height((n + 1) / 2));
    }
  }

  lemma NextLevel(c: Crypto, leaves: seq<string>, b: nat)
    requires leaves != [] && b < Width(|leaves|, 1)
    ensures var next := HashAll(c, PairTexts(leaves));
            && |next| == (|leaves| + 1) / 2 == Width(|leaves|, 1) == Width(|next|, 0)
            && Node(c, next, 0, b) == Node(c, leaves, 1, b)
  {
  }

  /** A node above the leaves, by its children. */
  lemma NodeJoins(c: Crypto, leaves: seq<string>, h: nat, b: nat)
    requires b < Width(|leaves|, h + 1)
    ensures 2 * b < Width(|leaves|, h)
    ensures Node(c, leaves, h + 1, b) ==
            c.digest(Node(c, leaves, h, 2 * b) +
                     Node(c, leaves, h, if 2 * b + 1 < Width(|leaves|, h) then 2 * b + 1 else 2 * b))
  {
  }

  lemma {:induction false} NodeAbove(c: Crypto, leaves: seq<string>, h: nat, b: nat)
    requires leaves != [] && b < Width(|leaves|, h + 1)
    ensures var next := HashAll(c, PairTexts(leaves));
            Width(|next|, h) == Width(|leaves|, h + 1) && Node(c, next, h, b) == Node(c, leaves, h + 1, b)
  {
    hide *;
    var n, next := |leaves|, HashAll(c, PairTexts(leaves));
    WidthAbove(n, h);
    WidthOne(n);
    NextLevel(c, leaves, 0);
    if h == 0 {
      NextLevel(c, leaves, b);
    } else {
      WidthAbove(n, h - 1);
      NodeJoins(c, next, h - 1, b);
      NodeJoins(c, leaves, h, b);
      NodeAbove(c, leaves, h - 1, 2 * b);
      if 2 * b + 1 < Width(n, h) {
        NodeAbove(c, leaves, h - 1, 2 * b + 1);
      }
    }
  }

  lemma WidthOne(n: nat)
    requires n >= 1
    ensures Width(n, 1) == (n + 1) / 2 >= 1
  {
  }

  /** The root is the one node on top. */
  lemma {:induction false} RootIsTopNode(c: Crypto, leaves: seq<string>)
    requires leaves != []
    ensures Width(|leaves|, Height(|leaves|)) == 1
    ensures Root(c, leaves) == Node(c, leaves, Height(|leaves|), 0)
    decreases |leaves|
  {
    OneNodeOnTop(|leaves|);
    if |leaves| > 1 {
      var next := HashAll(c, PairTexts(leaves));
      NextLevel(c, leaves, 0);
      RootIsTopNode(c, next);
      NodeAbove(c, leaves, Height(|next|), 0);
    }
  }

  /** The siblings met on the way from a node to the top. */
  function Siblings(c: Crypto, leaves: seq<string>, h: nat, b: nat): seq<string>
    requires leaves != [] && b < Width(|leaves|, h)
    decreases Width(|leaves|, h)
  {
    var w := Width(|leaves|, h);
    if w == 1 then []
    else [Node(c, leaves, h, if b % 2 == 1 then b - 1 else if b + 1 < w then b + 1 else b)] + Siblings(c, leaves, h + 1, b / 2)
  }

  /** What a verifier computes from a leaf, its position and its siblings: the left node always comes first. */
  function Folded(c: Crypto, node: string, position: nat, siblings: seq<string>): string
    decreases siblings
  {
    if siblings == [] then node
    else
      Folded(c, if position % 2 == 0 then c.digest(node + siblings[0]) else c.digest(siblings[0] + node), position / 2,
             siblings[1..])
  }

  lemma {:induction false} ManyBelow(n: nat, h: nat)
    requires n >= 1 && h < Height(n)
    ensures Width(n, h) > 1
    decreases n
  {
    if h > 0 {
      ManyBelow((n + 1) / 2, h - 1);
      WidthAbove(n, h - 1);
    }
  }

  /** A node and its sibling, in order, make the node above. */
  lemma Parent(c: Crypto, leaves: seq<string>, h: nat, b: nat)
    requires leaves != [] && b < Width(|leaves|, h) && Width(|leaves|, h) > 1
    ensures var siblings := Siblings(c, leaves, h, b);
            && siblings != [] && b / 2 < Width(|leaves|, h + 1)
            && siblings[1..] == Siblings(c, leaves, h + 1, b / 2)
            && Node(c, leaves, h + 1, b / 2) ==
                 if b % 2 == 0 then c.digest(Node(c, leaves, h, b) + siblings[0])
                 else c.digest(siblings[0] + Node(c, leaves, h, b))
  {
    assert Width(|leaves|, h + 1) == (Width(|leaves|, h) + 1) / 2;
    assert 2 * (b / 2) == b || 2 * (b / 2) + 1 == b;
    var w := Width(|leaves|, h);
    var siblings := Siblings(c, leaves, h, b);
    assert siblings[0] == Node(c, leaves, h, if b % 2 == 1 then b - 1 else if b + 1 < w then b + 1 else b);
    assert siblings[1..] == Siblings(c, leaves, h + 1, b / 2);
    hide Siblings, Width;
  }

  lemma {:induction false} PathFrom(c: Crypto, leaves: seq<string>, h: nat, b: nat)
    requires leaves != [] && h <= Height(|leaves|) && b < Width(|leaves|, h)
    ensures Folded(c, Node(c, leaves, h, b), b, Siblings(c, leaves, h, b)) == Root(c, leaves)
    decreases Height(|leaves|) - h
  {
    hide *;
    RootIsTopNode(c, leaves);
    if h < Height(|leaves|) {
      ManyBelow(|leaves|, h);
      Parent(c, leaves, h, b);
      FoldedOnce(c, Node(c, leaves, h, b), b, Siblings(c, leaves, h, b));
      PathFrom(c, leaves, h + 1, b / 2);
    } else {
      NothingAbove(c, leaves, h, b);
    }
  }

  lemma {:induction false} PathLength(c: Crypto, leaves: seq<string>, h: nat, b: nat)
    requires leaves != [] && h <= Height(|leaves|) && b < Width(|leaves|, h)
    ensures |Siblings(c, leaves, h, b)| == Height(|leaves|) - h
    decreases Height(|leaves|) - h
  {
    hide *;
    if h < Height(|leaves|) {
      ManyBelow(|leaves|, h);
      Parent(c, leaves, h, b);
      PathLength(c, leaves, h + 1, b / 2);
    } else {
      OneNodeOnTop(|leaves|);
      NothingAbove(c, leaves, h, b);
    }
  }

  lemma FoldedOnce(c: Crypto, node: string, position: nat, siblings: seq<string>)
    requires siblings != []
    ensures Folded(c, node, position, siblings) ==
            Folded(c, if position % 2 == 0 then c.digest(node + siblings[0]) else c.digest(siblings[0] + node), position / 2,
                   siblings[1..])
  {
  }

  lemma NothingAbove(c: Crypto, leaves: seq<string>, h: nat, b: nat)
    requires leaves != [] && b < Width(|leaves|, h) && Width(|leaves|, h) == 1
    ensures Siblings(c, leaves, h, b) == []
    ensures Folded(c, Node(c, leaves, h, b), b, []) == Node(c, leaves, h, b)
  {
  }

  /**
   The audit path of every leaf leads to the root: folding the leaf with its siblings, each on
   the side that the position says, gives what `merkle_root` returns.
   */
  lemma AuditPath(c: Crypto, leaves: seq<string>, i: nat)
    requires i < |leaves|
    ensures Folded(c, leaves[i], i, Siblings(c, leaves, 0, i)) == Root(c, leaves)
    ensures |Siblings(c, leaves, 0, i)| == Height(|leaves|)
  {
    PathFrom(c, leaves, 0, i);
    PathLength(c, leaves, 0, i);
  }

  /** The list comprehension that builds the next level. */
  method HashPairs(c: Crypto, level: seq<string>) returns (next: seq<string>)
    requires level != [] && |level| % 2 == 0
    ensures next == HashAll(c, PairTexts(level))
  {
    next := [];
    for i := 0 to |level| / 2
      invariant |next| == i
      invariant forall j :: 0 <= j < i ==> next[j] == c.digest(PairTexts(level)[j])
    {
      next := next + [PairHash(c, level[2 * i], level[2 * i + 1])];
    }
  }

  /** `merkle_root`. */
  method ComputeMerkleRoot(c: Crypto, leaves: seq<string>) returns (root: string)
    ensures root == Root(c, leaves)
    ensures leaves == [] ==> root == c.digest("")
    ensures leaves != [] ==> root == Node(c, leaves, Height(|leaves|), 0)
    ensures forall i :: 0 <= i < |leaves| ==> Folded(c, leaves[i], i, Siblings(c, leaves, 0, i)) == root
  {
    if leaves != [] {
      RootIsTopNode(c, leaves);
    }
    forall i | 0 <= i < |leaves| ensures Folded(c, leaves[i], i, Siblings(c, leaves, 0, i)) == Root(c, leaves) {
      AuditPath(c, leaves, i);
    }
    if leaves == [] {
      return c.digest("");
    }
    var level := leaves;
    while |level| > 1
      invariant level != [] && Root(c, level) == Root(c, leaves)
      decreases |level|
    {
      PaddingIsIdempotent(level);
      if |level| % 2 == 1 {
        level := level + [level[|level| - 1]];
      }
      level := HashPairs(c, level);
    }
    return level[0];
  }

  ghost predicate AllDigests(xs: seq<string>) {
    forall i :: 0 <= i < |xs| ==> |xs[i]| == DIGEST_LENGTH
  }

  /** Halves of one length: equal concatenations have equal halves. */
  lemma HalvesBound(a: string, b: string, a': string, b': string)
    requires |a| == |a'| && a + b == a' + b'
    ensures a == a' && b == b'
  {
    assert a == (a + b)[..|a|] && a' == (a' + b')[..|a|];
    assert b == (a + b)[|a|..] && b' == (a' + b')[|a|..];
  }

  lemma PairTextsBindLevel(xs: seq<string>, ys: seq<string>)
    requires |xs| == |ys| > 0 && AllDigests(xs) && AllDigests(ys)
    requires PairTexts(xs) == PairTexts(ys)
    ensures xs == ys
  {
    var p, q := Padded(xs), Padded(ys);
    forall k | 0 <= k < |xs| ensures xs[k] == ys[k] {
      var i := k / 2;
      assert PairTexts(xs)[i] == p[2 * i] + p[2 * i + 1] && PairTexts(ys)[i] == q[2 * i] + q[2 * i + 1];
      HalvesBound(p[2 * i], p[2 * i + 1], q[2 * i], q[2 * i + 1]);
    }
  }

  lemma HashAllBinds(c: Crypto, xs: seq<string>, ys: seq<string>)
    requires HashAll(c, xs) == HashAll(c, ys)
    requires !Collision(c, SetOf(xs), SetOf(ys))
    ensures xs == ys
  {
    assert |xs| == |HashAll(c, xs)| == |ys|;
    forall i | 0 <= i < |xs| ensures xs[i] == ys[i] {
      assert c.digest(xs[i]) == HashAll(c, xs)[i] == HashAll(c, ys)[i] == c.digest(ys[i]);
      assert xs[i] in SetOf(xs) && ys[i] in SetOf(ys);
    }
  }

  lemma NoCollisionBelow(c: Crypto, xs: set<string>, ys: set<string>, xs': set<string>, ys': set<string>)
    requires xs <= xs' && ys <= ys' && !Collision(c, xs', ys')
    ensures !Collision(c, xs, ys)
  {
    if Collision(c, xs, ys) {
      CollisionMono(c, xs, ys, xs', ys');
    }
  }

  /** A root binds its leaves, among leaf lists of one length. */
  lemma {:induction false} RootBindsLeaves(c: Crypto, xs: seq<string>, ys: seq<string>)
    requires WellFormed(c) && |xs| == |ys| && AllDigests(xs) && AllDigests(ys)
    requires Root(c, xs) == Root(c, ys)
    requires !Collision(c, HashedByTree(c, xs), HashedByTree(c, ys))
    ensures xs == ys
    decreases |xs|
  {
    if |xs| > 1 {
      var tx, ty := PairTexts(xs), PairTexts(ys);
      var nx, ny := HashAll(c, tx), HashAll(c, ty);
      NoCollisionBelow(c, HashedByTree(c, nx), HashedByTree(c, ny), HashedByTree(c, xs), HashedByTree(c, ys));
      RootBindsLeaves(c, nx, ny);
      NoCollisionBelow(c, SetOf(tx), SetOf(ty), HashedByTree(c, xs), HashedByTree(c, ys));
      HashAllBinds(c, tx, ty);
      PairTextsBindLevel(xs, ys);
    }
  }

  /** The length is not bound: repeating the last leaf of an odd list never changes the root. */
  lemma OddListRepeatsLastLeaf(c: Crypto, leaves: seq<string>)
    requires |leaves| > 1 && |leaves| % 2 == 1
    ensures Root(c, leaves) == Root(c, leaves + [leaves[|leaves| - 1]])
  {
    assert Padded(leaves) == Padded(leaves + [leaves[|leaves| - 1]]);
    assert PairTexts(leaves) == PairTexts(leaves + [leaves[|leaves| - 1]]);
  }

  // ----- what the root does not bind -----

  /** The digest of a node paired with itself, taken `h` times. */
  function SelfPaired(c: Crypto, x: string, h: nat): string
    decreases h
  {
    if h == 0 then x else SelfPaired(c, PairHash(c, x, x), h - 1)
  }

  function Copies(x: string, n: nat): (r: seq<string>)
    ensures |r| == n
  {
    seq(n, _ => x)
  }

  lemma LevelOfCopies(c: Crypto, x: string, n: nat)
    requires n >= 1
    ensures HashAll(c, PairTexts(Copies(x, n))) == Copies(PairHash(c, x, x), (n + 1) / 2)
  {
  }

  lemma {:induction false} RootOfCopies(c: Crypto, x: string, n: nat)
    requires n >= 1
    ensures Root(c, Copies(x, n)) == SelfPaired(c, x, Height(n))
    decreases n
  {
    assert n == 1 ==> Copies(x, n)[0] == x;
    hide HashAll, PairTexts, Copies, PairHash;
    if n > 1 {
      LevelOfCopies(c, x, n);
      RootOfCopies(c, PairHash(c, x, x), (n + 1) / 2);
    }
  }

  lemma {:induction false} SelfPairedAdds(c: Crypto, x: string, g: nat, h: nat)
    ensures SelfPaired(c, SelfPaired(c, x, g), h) == SelfPaired(c, x, g + h)
    decreases g
  {
    if g > 0 {
      SelfPairedAdds(c, PairHash(c, x, x), g - 1, h);
    }
  }

  lemma {:induction false} SelfPairedIsDigest(c: Crypto, x: string, h: nat)
    requires WellFormed(c) && |x| == DIGEST_LENGTH
    ensures |SelfPaired(c, x, h)| == DIGEST_LENGTH
    decreases h
  {
    if h > 0 {
      assert IsDigest(c.digest(x + x));
      SelfPairedIsDigest(c, PairHash(c, x, x), h - 1);
    }
  }

  lemma CopiesBelow(c: Crypto, x: string, m: nat, h: nat)
    requires WellFormed(c) && |x| == DIGEST_LENGTH && m >= 1
    ensures var xs := Copies(SelfPaired(c, x, h), m); AllDigests(xs) && Root(c, xs) == SelfPaired(c, x, h + Height(m))
  {
    SelfPairedIsDigest(c, x, h);
    RootOfCopies(c, SelfPaired(c, x, h), m);
    SelfPairedAdds(c, x, h, Height(m));
    hide Root, SelfPaired, Height, WellFormed;
  }

  /**
   The root binds no length: above every node there is, for any two lengths, a list of digests
   of each length with one common root. With `RootBindsLeaves`, the root fixes the leaves
   exactly when something else fixes their number.
   */
  lemma AnyTwoLengthsShareARoot(c: Crypto, x: string, m: nat, n: nat) returns (xs: seq<string>, ys: seq<string>)
    requires WellFormed(c) && |x| == DIGEST_LENGTH && m >= 1 && n >= 1
    ensures |xs| == m && |ys| == n && AllDigests(xs) && AllDigests(ys)
    ensures Root(c, xs) == Root(c, ys) == SelfPaired(c, x, Height(m) + Height(n))
  {
    hide WellFormed, Root, SelfPaired, Height, AllDigests;
    CopiesBelow(c, x, m, Height(n));
    CopiesBelow(c, x, n, Height(m));
    xs, ys := Copies(SelfPaired(c, x, Height(n)), m), Copies(SelfPaired(c, x, Height(m)), n);
  }

  // ----- the root over all shards -----

  function Leaves(c: Crypto, heads: seq<ShardHead>): seq<string> {
    seq(|heads|, i requires 0 <= i < |heads| => LeafHash(c, heads[i]))
  }

  /** `sorted(heads, key=shard_id)`, which is stable. */
  function InsertHead(hs: seq<ShardHead>, h: ShardHead): (r: seq<ShardHead>)
    ensures |r| == |hs| + 1
  {
    if hs == [] || hs[|hs| - 1].shardId <= h.shardId then hs + [h]
    else InsertHead(hs[..|hs| - 1], h) + [hs[|hs| - 1]]
  }

  function SortHeads(hs: seq<ShardHead>): (r: seq<ShardHead>)
    ensures |r| == |hs|
  {
    if hs == [] then [] else InsertHead(SortHeads(hs[..|hs| - 1]), hs[|hs| - 1])
  }

  function ComputeRoot(c: Crypto, heads: seq<ShardHead>): string {
    Root(c, Leaves(c, SortHeads(heads)))
  }

  function CurrentHeads(rows: seq<AuditEntry>): (hs: seq<ShardHead>)
    ensures |hs| == NUM_SHARDS
  {
    seq(NUM_SHARDS, s => ShardHead(s, HeadHash(ChainOrder(rows, s))))
  }

  /** `current_shard_heads`. */
  method ReadShardHeads(rows: seq<AuditEntry>) returns (heads: seq<ShardHead>)
    ensures heads == CurrentHeads(rows)
  {
    heads := [];
    for shard := 0 to NUM_SHARDS
      invariant |heads| == shard
      invariant forall s :: 0 <= s < shard ==> heads[s] == ShardHead(s, HeadHash(ChainOrder(rows, s)))
    {
      var latest := Latest(rows, shard);
      heads := heads + [ShardHead(shard, if latest.Some? then Some(latest.value.hash) else None)];
    }
  }

  lemma {:induction false} SortedHeadsStay(hs: seq<ShardHead>)
    requires forall i, j :: 0 <= i < j < |hs| ==> hs[i].shardId <= hs[j].shardId
    ensures SortHeads(hs) == hs
  {
    if hs != [] {
      SortedHeadsStay(hs[..|hs| - 1]);
    }
  }

  lemma LeafTextBindsHead(g: ShardHead, h: ShardHead)
    requires g.shardId == h.shardId && LeafText(g) == LeafText(h)
    requires g.headHash.Some? ==> |g.headHash.value| == DIGEST_LENGTH
    requires h.headHash.Some? ==> |h.headHash.value| == DIGEST_LENGTH
    ensures g == h
  {
    HalvesBound(ShardText(g.shardId) + ":", OrEmpty(g.headHash), ShardText(h.shardId) + ":", OrEmpty(h.headHash));
  }

  // ----- the anchored root, written out -----

  lemma {:induction false} InsertHeadHolds(hs: seq<ShardHead>, h: ShardHead)
    ensures multiset(InsertHead(hs, h)) == multiset(hs) + multiset{h}
  {
    if hs != [] && hs[|hs| - 1].shardId > h.shardId {
      var n := |hs| - 1;
      InsertHeadHolds(hs[..n], h);
      assert hs == hs[..n] + [hs[n]];
    }
  }

  lemma {:induction false} InsertHeadKeeps(hs: seq<ShardHead>, h: ShardHead)
    requires forall i, j :: 0 <= i < j < |hs| ==> hs[i].shardId <= hs[j].shardId
    ensures forall i, j :: 0 <= i < j < |InsertHead(hs, h)| ==> InsertHead(hs, h)[i].shardId <= InsertHead(hs, h)[j].shardId
  {
    if hs != [] && hs[|hs| - 1].shardId > h.shardId {
      var n := |hs| - 1;
      InsertHeadKeeps(hs[..n], h);
      var low := InsertHead(hs[..n], h);
      assert InsertHead(hs, h) == low + [hs[n]];
      InsertHeadHolds(hs[..n], h);
      hide InsertHead;
      forall i | 0 <= i < |low| ensures low[i].shardId <= hs[n].shardId {
        assert low[i] in multiset(low);
      }
    }
  }

  /** Sorting the heads puts them in shard order and loses none. */
  lemma {:induction false} SortHeadsSorts(hs: seq<ShardHead>)
    ensures var r := SortHeads(hs);
            && (forall i, j :: 0 <= i < j < |r| ==> r[i].shardId <= r[j].shardId)
            && multiset(r) == multiset(hs)
  {
    if hs != [] {
      var n := |hs| - 1;
      SortHeadsSorts(hs[..n]);
      InsertHeadKeeps(SortHeads(hs[..n]), hs[n]);
      InsertHeadHolds(SortHeads(hs[..n]), hs[n]);
      assert hs == hs[..n] + [hs[n]];
    }
  }

  /** The leaf of a shard: its number, a colon, and its head, which is empty for an empty shard. */
  function ShardLeaf(c: Crypto, rows: seq<AuditEntry>, s: nat): string
    requires s < 8
  {
    var head := HeadHash(ChainOrder(rows, s));
    c.digest(["01234567"[s]] + ":" + if head.Some? then head.value else "")
  }

  lemma LeafOfShard(c: Crypto, rows: seq<AuditEntry>, s: nat)
    requires s < 8
    ensures Leaves(c, SortHeads(CurrentHeads(rows)))[s] == ShardLeaf(c, rows, s)
  {
    SortedHeadsStay(CurrentHeads(rows));
    var h := CurrentHeads(rows)[s];
    assert "0123456789"[s] == "01234567"[s];
    assert Decimal(s) == ["01234567"[s]];
    assert LeafText(h) == ["01234567"[s]] + ":" + OrEmpty(h.headHash);
    hide SortHeads, ChainOrder;
  }

  /** The root over the eight shards: pairs of neighbours, twice over, lower shard first. */
  lemma RootOfShards(c: Crypto, rows: seq<AuditEntry>)
    ensures var leaf := (s: nat) requires s < 8 => ShardLeaf(c, rows, s);
            ComputeRoot(c, CurrentHeads(rows)) ==
              c.digest(c.digest(c.digest(leaf(0) + leaf(1)) + c.digest(leaf(2) + leaf(3))) +
                       c.digest(c.digest(leaf(4) + leaf(5)) + c.digest(leaf(6) + leaf(7))))
  {
    var leaves := Leaves(c, SortHeads(CurrentHeads(rows)));
    forall s: nat | s < 8 ensures leaves[s] == ShardLeaf(c, rows, s) {
      LeafOfShard(c, rows, s);
    }
    assert |leaves| == 8;
    RootIsTopNode(c, leaves);
    HeightOfEight();
    NodeOfEight(c, leaves);
    hide *;
  }

  lemma HeightOfEight()
    ensures Height(8) == 3
    ensures Width(8, 3) == 1 && Width(8, 2) == 2 && Width(8, 1) == 4 && Width(8, 0) == 8
  {
    assert Height(1) == 0 && Height(2) == 1 && Height(4) == 2;
    assert Width(8, 0) == 8 && Width(8, 1) == 4 && Width(8, 2) == 2;
  }

  lemma NodeOfEight(c: Crypto, l: seq<string>)
    requires |l| == 8
    ensures Width(8, 3) == 1
    ensures Node(c, l, 3, 0) ==
              c.digest(c.digest(c.digest(l[0] + l[1]) + c.digest(l[2] + l[3])) +
                       c.digest(c.digest(l[4] + l[5]) + c.digest(l[6] + l[7])))
  {
    HeightOfEight();
    forall b: nat | b < 4 ensures Node(c, l, 1, b) == c.digest(l[2 * b] + l[2 * b + 1]) {
      NodeJoins(c, l, 0, b);
    }
    forall b: nat | b < 2 ensures Node(c, l, 2, b) == c.digest(Node(c, l, 1, 2 * b) + Node(c, l, 1, 2 * b + 1)) {
      NodeJoins(c, l, 1, b);
    }
    NodeJoins(c, l, 2, 0);
    hide Node, Width;
    assert Node(c, l, 2, 0) == c.digest(Node(c, l, 1, 0) + Node(c, l, 1, 1));
    assert Node(c, l, 2, 1) == c.digest(Node(c, l, 1, 2) + Node(c, l, 1, 3));
  }
}
