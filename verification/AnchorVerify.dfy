/**
 Verifying the log against a root held elsewhere, and bounding when it was tampered with
 (libs/audit/src/landaudit/verify.py, rollup.py).
 */
module AnchorVerify {
  import opened Wrappers
  import opened HashChain
  import opened MerkleRoot

  ghost predicate Sound(c: Crypto, rows: seq<AuditEntry>) {
    forall s :: 0 <= s < NUM_SHARDS ==> Chained(c, ChainOrder(rows, s))
  }

  // ----- what an anchored root binds -----

  function LeafTexts(rows: seq<AuditEntry>): seq<string> {
    seq(NUM_SHARDS, s requires 0 <= s < NUM_SHARDS => LeafText(CurrentHeads(rows)[s]))
  }

  /** Every text that a verification of `rows` hashes. */
  ghost function HashedBy(c: Crypto, rows: seq<AuditEntry>): set<string> {
    (set s, m | 0 <= s < NUM_SHARDS && m in HashedByChain(c, ChainOrder(rows, s)) :: m)
    + SetOf(LeafTexts(rows)) + HashedByTree(c, Leaves(c, CurrentHeads(rows)))
  }

  /** The heads are already in shard order, so the root is taken over the hashed leaf texts. */
  lemma RootOverLeafTexts(c: Crypto, rows: seq<AuditEntry>)
    ensures ComputeRoot(c, CurrentHeads(rows)) == Root(c, HashAll(c, LeafTexts(rows)))
    ensures HashedByTree(c, HashAll(c, LeafTexts(rows))) <= HashedBy(c, rows)
    ensures SetOf(LeafTexts(rows)) <= HashedBy(c, rows)
  {
    SortedHeadsStay(CurrentHeads(rows));
    assert Leaves(c, CurrentHeads(rows)) == HashAll(c, LeafTexts(rows));
  }

  lemma TextsUnderRoot(c: Crypto, tx: seq<string>, ty: seq<string>)
    requires WellFormed(c) && |tx| == |ty|
    requires Root(c, HashAll(c, tx)) == Root(c, HashAll(c, ty))
    requires !Collision(c, HashedByTree(c, HashAll(c, tx)), HashedByTree(c, HashAll(c, ty)))
    requires !Collision(c, SetOf(tx), SetOf(ty))
    ensures tx == ty
  {
    RootBindsLeaves(c, HashAll(c, tx), HashAll(c, ty));
    HashAllBinds(c, tx, ty);
  }

  /** Equal roots come from equal leaf texts. */
  lemma RootBindsLeafTexts(c: Crypto, a: seq<AuditEntry>, b: seq<AuditEntry>)
    requires WellFormed(c)
    requires ComputeRoot(c, CurrentHeads(a)) == ComputeRoot(c, CurrentHeads(b))
    requires !Collision(c, HashedBy(c, a), HashedBy(c, b))
    ensures LeafTexts(a) == LeafTexts(b)
  {
    var tx, ty := LeafTexts(a), LeafTexts(b);
    RootOverLeafTexts(c, a);
    RootOverLeafTexts(c, b);
    NoCollisionBelow(c, HashedByTree(c, HashAll(c, tx)), HashedByTree(c, HashAll(c, ty)), HashedBy(c, a), HashedBy(c, b));
    NoCollisionBelow(c, SetOf(tx), SetOf(ty), HashedBy(c, a), HashedBy(c, b));
    TextsUnderRoot(c, tx, ty);
  }

  lemma LeafTextsBindHeads(c: Crypto, a: seq<AuditEntry>, b: seq<AuditEntry>, s: int)
    requires WellFormed(c) && Sound(c, a) && Sound(c, b)
    requires LeafTexts(a) == LeafTexts(b) && 0 <= s < NUM_SHARDS
    ensures HeadHash(ChainOrder(a, s)) == HeadHash(ChainOrder(b, s))
  {
    assert LeafTexts(a)[s] == LeafTexts(b)[s];
    HashesAreDigests(c, ChainOrder(a, s), |ChainOrder(a, s)|);
    HashesAreDigests(c, ChainOrder(b, s), |ChainOrder(b, s)|);
    LeafTextBindsHead(CurrentHeads(a)[s], CurrentHeads(b)[s]);
  }

  lemma ShardNoCollision(c: Crypto, a: seq<AuditEntry>, b: seq<AuditEntry>, s: int)
    requires 0 <= s < NUM_SHARDS && !Collision(c, HashedBy(c, a), HashedBy(c, b))
    ensures !Collision(c, HashedByChain(c, ChainOrder(a, s)), HashedByChain(c, ChainOrder(b, s)))
  {
    NoCollisionBelow(c, HashedByChain(c, ChainOrder(a, s)), HashedByChain(c, ChainOrder(b, s)), HashedBy(c, a), HashedBy(c, b));
  }

  lemma AnchorBindsShard(c: Crypto, a: seq<AuditEntry>, b: seq<AuditEntry>, s: int)
    requires WellFormed(c) && Sound(c, a) && Sound(c, b) && 0 <= s < NUM_SHARDS
    requires ComputeRoot(c, CurrentHeads(a)) == ComputeRoot(c, CurrentHeads(b))
    requires !Collision(c, HashedBy(c, a), HashedBy(c, b))
    ensures Materials(c, ChainOrder(a, s)) == Materials(c, ChainOrder(b, s))
  {
    RootBindsLeafTexts(c, a, b);
    ShardNoCollision(c, a, b, s);
    LeafTextsBindHeads(c, a, b, s);
    EqualHeadsBindHistories(c, ChainOrder(a, s), ChainOrder(b, s));
  }

  /**
   Anchor binding. Two logs that both pass the structural check and have the same root have
   the same hashed history in every shard, entry by entry; otherwise two different texts,
   one hashed while verifying each log, share a digest.
   */
  lemma AnchorBindsHistories(c: Crypto, a: seq<AuditEntry>, b: seq<AuditEntry>)
    requires WellFormed(c) && Sound(c, a) && Sound(c, b)
    requires ComputeRoot(c, CurrentHeads(a)) == ComputeRoot(c, CurrentHeads(b))
    ensures || (forall s :: 0 <= s < NUM_SHARDS ==> Materials(c, ChainOrder(a, s)) == Materials(c, ChainOrder(b, s)))
            || Collision(c, HashedBy(c, a), HashedBy(c, b))
  {
    if !Collision(c, HashedBy(c, a), HashedBy(c, b)) {
      forall s | 0 <= s < NUM_SHARDS ensures Materials(c, ChainOrder(a, s)) == Materials(c, ChainOrder(b, s)) {
        AnchorBindsShard(c, a, b, s);
      }
    }
  }

  /** What the hashed text of an entry shows of it; a missing text and an empty one look alike. */
  predicate SameRecord(e: AuditEntry, f: AuditEntry) {
    Texts(e) == Texts(f) && e.at == f.at && e.prevHash == f.prevHash && e.hash == f.hash
  }

  ghost predicate TimesDiffer(c: Crypto) {
    forall s, t :: c.isoFormat(s) == c.isoFormat(t) ==> s == t
  }

  /** Equal histories are equal entries, field by field, where one of the two holds no separator. */
  lemma MaterialsBindFields(c: Crypto, xs: seq<AuditEntry>, ys: seq<AuditEntry>, i: nat)
    requires WellFormed(c) && TimesDiffer(c) && Chained(c, xs) && Chained(c, ys)
    requires i < |xs| && Materials(c, xs) == Materials(c, ys)
    requires SeparatorFree(Fields(c, xs[i]))
    ensures |xs| == |ys| && SameRecord(xs[i], ys[i])
  {
    assert |xs| == |Materials(c, xs)| == |ys|;
    assert LinkOk(c, xs, i) && LinkOk(c, ys, i);
    assert Materials(c, xs)[i] == Materials(c, ys)[i];
    HashesAreDigests(c, xs, i);
    HashesAreDigests(c, ys, i);
    MaterialBindsPredecessor(c, HeadBefore(xs, i), xs[i], HeadBefore(ys, i), ys[i]);
    var f, g := Fields(c, xs[i]), Fields(c, ys[i]);
    JoinBindsFields(f, g);
    assert f[0] == g[0] && f[1] == g[1] && f[2] == g[2] && f[3] == g[3] && f[4] == g[4] && f[5] == g[5];
  }

  /** No entry of a log holds the separator in what is hashed of it. */
  ghost predicate LogSeparatorFree(c: Crypto, rows: seq<AuditEntry>) {
    forall s, i :: 0 <= s < NUM_SHARDS && 0 <= i < |ChainOrder(rows, s)| ==> SeparatorFree(Fields(c, ChainOrder(rows, s)[i]))
  }

  ghost predicate SameShard(xs: seq<AuditEntry>, ys: seq<AuditEntry>) {
    |xs| == |ys| && forall i :: 0 <= i < |xs| ==> SameRecord(xs[i], ys[i])
  }

  /**
   A log whose own entries hold no separator is bound entry by entry, whatever the other log
   holds: one that verifies and has the same root has the same records in every shard.
   */
  lemma AnchorBindsRecords(c: Crypto, honest: seq<AuditEntry>, other: seq<AuditEntry>)
    requires WellFormed(c) && TimesDiffer(c) && Sound(c, honest) && Sound(c, other) && LogSeparatorFree(c, honest)
    requires ComputeRoot(c, CurrentHeads(honest)) == ComputeRoot(c, CurrentHeads(other))
    ensures || (forall s :: 0 <= s < NUM_SHARDS ==> SameShard(ChainOrder(honest, s), ChainOrder(other, s)))
            || Collision(c, HashedBy(c, honest), HashedBy(c, other))
  {
    if !Collision(c, HashedBy(c, honest), HashedBy(c, other)) {
      forall s | 0 <= s < NUM_SHARDS ensures SameShard(ChainOrder(honest, s), ChainOrder(other, s)) {
        AnchorBindsShard(c, honest, other, s);
        ShardRecords(c, ChainOrder(honest, s), ChainOrder(other, s));
      }
    }
  }

  lemma ShardRecords(c: Crypto, xs: seq<AuditEntry>, ys: seq<AuditEntry>)
    requires WellFormed(c) && TimesDiffer(c) && Chained(c, xs) && Chained(c, ys) && Materials(c, xs) == Materials(c, ys)
    requires forall i :: 0 <= i < |xs| ==> SeparatorFree(Fields(c, xs[i]))
    ensures SameShard(xs, ys)
  {
    hide SeparatorFree, Chained, Materials, Fields;
    SameLength(c, xs, ys);
    forall i | 0 <= i < |xs| ensures SameRecord(xs[i], ys[i]) {
      MaterialsBindFields(c, xs, ys, i);
    }
  }

  lemma SameLength(c: Crypto, xs: seq<AuditEntry>, ys: seq<AuditEntry>)
    requires Materials(c, xs) == Materials(c, ys)
    ensures |xs| == |ys|
  {
    assert |Materials(c, xs)| == |xs| && |Materials(c, ys)| == |ys|;
  }

  // ----- localisation against the log's own roll history -----

  datatype ChainRoot = ChainRoot(id: nat, root: string, rolledAt: int, shardHeads: seq<ShardHead>)

  datatype TamperWindow = TamperWindow(shardId: int, lastAgreeing: Option<ChainRoot>, earliestDisagreeing: ChainRoot)

  /** The head a roll recorded for a shard: `None` when the shard is not listed or was empty. */
  function RecordedHead(heads: seq<ShardHead>, shard: int): Option<string> {
    if heads == [] then None
    else if heads[0].shardId == shard then heads[0].headHash
    else RecordedHead(heads[1..], shard)
  }

  predicate HashPresent(rows: seq<AuditEntry>, shard: int, h: string) {
    exists e :: e in rows && e.shardId == shard && e.hash == h
  }

  predicate Agrees(rows: seq<AuditEntry>, roll: ChainRoot, shard: int) {
    var h := RecordedHead(roll.shardHeads, shard);
    h.Some? && HashPresent(rows, shard, h.value)
  }

  predicate Disagrees(rows: seq<AuditEntry>, roll: ChainRoot, shard: int) {
    var h := RecordedHead(roll.shardHeads, shard);
    h.Some? && !HashPresent(rows, shard, h.value)
  }

  /** The latest roll, before roll `k`, whose head for the shard is still there. */
  function LastAgreeing(rows: seq<AuditEntry>, rolls: seq<ChainRoot>, shard: int, k: nat): Option<ChainRoot>
    requires k <= |rolls|
  {
    if k == 0 then None
    else if Agrees(rows, rolls[k - 1], shard) then Some(rolls[k - 1])
    else LastAgreeing(rows, rolls, shard, k - 1)
  }

  /** `w` names the earliest disagreeing roll and the nearest agreeing one before it. */
  ghost predicate Locates(w: TamperWindow, rows: seq<AuditEntry>, rolls: seq<ChainRoot>, shard: int) {
    exists k: nat :: LocatesAt(w, rows, rolls, shard, k)
  }

  ghost predicate LocatesAt(w: TamperWindow, rows: seq<AuditEntry>, rolls: seq<ChainRoot>, shard: int, k: nat) {
    && k < |rolls| && Disagrees(rows, rolls[k], shard)
    && (forall j :: 0 <= j < k ==> !Disagrees(rows, rolls[j], shard))
    && w == TamperWindow(shard, LastAgreeing(rows, rolls, shard, k), rolls[k])
  }

  /** `rolls` is the roll history in the order of `rolled_at`, as the query returns it. */
  method BoundTamperWindow(rows: seq<AuditEntry>, rolls: seq<ChainRoot>, shard: int) returns (w: Option<TamperWindow>)
    ensures w.None? <==> forall k :: 0 <= k < |rolls| ==> !Disagrees(rows, rolls[k], shard)
    ensures w.Some? ==> Locates(w.value, rows, rolls, shard)
  {
    var lastAgreeing: Option<ChainRoot> := None;
    for k := 0 to |rolls|
      invariant forall j :: 0 <= j < k ==> !Disagrees(rows, rolls[j], shard)
      invariant lastAgreeing == LastAgreeing(rows, rolls, shard, k)
    {
      var roll := rolls[k];
      var head := RecordedHead(roll.shardHeads, shard);
      if head.None? {
        continue;
      }
      if !HashPresent(rows, shard, head.value) {
        assert LocatesAt(TamperWindow(shard, lastAgreeing, roll), rows, rolls, shard, k);
        return Some(TamperWindow(shard, lastAgreeing, roll));
      }
      lastAgreeing := Some(roll);
    }
    return None;
  }

  /** `Locates` leaves no choice. */
  lemma WindowUnique(w: TamperWindow, v: TamperWindow, rows: seq<AuditEntry>, rolls: seq<ChainRoot>, shard: int)
    requires Locates(w, rows, rolls, shard) && Locates(v, rows, rolls, shard)
    ensures w == v
  {
  }

  lemma {:induction false} LastAgreeingIsNearest(rows: seq<AuditEntry>, rolls: seq<ChainRoot>, shard: int, k: nat)
    requires k <= |rolls|
    ensures var l := LastAgreeing(rows, rolls, shard, k);
            if l.None? then forall j :: 0 <= j < k ==> !Agrees(rows, rolls[j], shard)
            else exists j :: 0 <= j < k && l.value == rolls[j] && Agrees(rows, rolls[j], shard)
                          && forall i :: j < i < k ==> !Agrees(rows, rolls[i], shard)
  {
    if k > 0 && !Agrees(rows, rolls[k - 1], shard) {
      LastAgreeingIsNearest(rows, rolls, shard, k - 1);
    }
  }

  /**
   What an agreeing roll vouches for. A roll recorded the heads of the log `before`; the log
   `now` verifies. The recorded head is still present exactly when the whole history that
   the roll saw is a prefix of the history now, or two hashed texts collide.
   */
  lemma RollAgreesIffPrefix(c: Crypto, before: seq<AuditEntry>, now: seq<AuditEntry>, roll: ChainRoot, s: int)
    requires WellFormed(c) && Sound(c, before) && Sound(c, now)
    requires 0 <= s < NUM_SHARDS && ChainOrder(before, s) != []
    requires roll.shardHeads == CurrentHeads(before)
    requires !Collision(c, HashedBy(c, before), HashedBy(c, now))
    ensures Agrees(now, roll, s) <==> Materials(c, ChainOrder(before, s)) <= Materials(c, ChainOrder(now, s))
    ensures Disagrees(now, roll, s) <==> !Agrees(now, roll, s)
  {
    var xs, ys := ChainOrder(before, s), ChainOrder(now, s);
    RecordedHeadOfCurrent(before, s);
    ChainOrderHolds(now, s);
    ShardNoCollision(c, before, now, s);
    if Agrees(now, roll, s) {
      var e :| e in now && e.shardId == s && e.hash == HeadHash(xs).value;
      var j :| 0 <= j < |ys| && ys[j] == e;
      HeadFoundBindsPrefix(c, xs, ys, j);
    }
    if Materials(c, xs) <= Materials(c, ys) {
      PrefixKeepsHead(c, xs, ys);
      assert ys[|xs| - 1] in ys;
    }
  }

  lemma HeadFoundBindsPrefix(c: Crypto, xs: seq<AuditEntry>, ys: seq<AuditEntry>, j: nat)
    requires WellFormed(c) && Chained(c, xs) && Chained(c, ys)
    requires j < |ys| && HeadHash(xs) == Some(ys[j].hash)
    requires !Collision(c, HashedByChain(c, xs), HashedByChain(c, ys))
    ensures Materials(c, xs) <= Materials(c, ys)
  {
    PrefixOfChain(c, ys, j + 1);
    NoCollisionBelow(c, HashedByChain(c, xs), HashedByChain(c, ys[..j + 1]), HashedByChain(c, xs), HashedByChain(c, ys));
    EqualHeadsBindHistories(c, xs, ys[..j + 1]);
  }

  lemma PrefixKeepsHead(c: Crypto, xs: seq<AuditEntry>, ys: seq<AuditEntry>)
    requires Chained(c, xs) && Chained(c, ys) && xs != []
    requires Materials(c, xs) <= Materials(c, ys)
    ensures |xs| <= |ys| && Some(ys[|xs| - 1].hash) == HeadHash(xs)
  {
    var j := |xs| - 1;
    assert |Materials(c, xs)| <= |Materials(c, ys)|;
    assert LinkOk(c, xs, j) && LinkOk(c, ys, j);
    assert Materials(c, xs)[j] == Materials(c, ys)[j];
  }

  lemma RecordedHeadOfCurrent(rows: seq<AuditEntry>, s: int)
    requires 0 <= s < NUM_SHARDS
    ensures RecordedHead(CurrentHeads(rows), s) == HeadHash(ChainOrder(rows, s))
  {
    RecordedHeadAt(CurrentHeads(rows), s, s);
  }

  lemma {:induction false} RecordedHeadAt(heads: seq<ShardHead>, shard: int, i: nat)
    requires i < |heads| && heads[i].shardId == shard
    requires forall j :: 0 <= j < i ==> heads[j].shardId != shard
    ensures RecordedHead(heads, shard) == heads[i].headHash
  {
    if i > 0 {
      RecordedHeadAt(heads[1..], shard, i - 1);
    }
  }

  // ----- the full check -----

  datatype ShardFinding = ShardFinding(shardId: int, ok: bool, broken: Option<AuditEntry>)

  datatype VerificationReport = VerificationReport(
    structuralOk: bool, findings: seq<ShardFinding>, anchorOk: Option<bool>, computedRoot: string,
    tamperWindow: Option<TamperWindow>)

  /** What a finding says of its shard: that it verifies, or which entry is the first that does not. */
  ghost predicate FindingOk(c: Crypto, rows: seq<AuditEntry>, s: int, f: ShardFinding) {
    && f.shardId == s && (f.ok <==> Chained(c, ChainOrder(rows, s)))
    && if f.ok then f.broken.None? else f.broken.Some? && FirstBroken(c, ChainOrder(rows, s), f.broken.value)
  }

  ghost predicate FindingsOk(c: Crypto, rows: seq<AuditEntry>, findings: seq<ShardFinding>) {
    |findings| == NUM_SHARDS && forall s :: 0 <= s < NUM_SHARDS ==> FindingOk(c, rows, s, findings[s])
  }

  /** Every shard is walked, also after a failure. */
  method StructuralFindings(c: Crypto, rows: seq<AuditEntry>) returns (findings: seq<ShardFinding>)
    ensures FindingsOk(c, rows, findings)
  {
    hide FirstBroken;
    findings := [];
    for shard := 0 to NUM_SHARDS
      invariant |findings| == shard
      invariant forall s :: 0 <= s < shard ==> FindingOk(c, rows, s, findings[s])
    {
      var broken := VerifyShard(c, rows, shard);
      findings := findings + [ShardFinding(shard, broken.None?, broken)];
    }
  }

  /** Stable sort by the time of the disagreeing roll. */
  function InsertWindow(w: TamperWindow, ws: seq<TamperWindow>): (r: seq<TamperWindow>)
    ensures r != []
  {
    if ws == [] || w.earliestDisagreeing.rolledAt <= ws[0].earliestDisagreeing.rolledAt then [w] + ws
    else [ws[0]] + InsertWindow(w, ws[1..])
  }

  function SortWindows(ws: seq<TamperWindow>): (r: seq<TamperWindow>)
    ensures r == [] <==> ws == []
  {
    if ws == [] then [] else InsertWindow(ws[0], SortWindows(ws[1..]))
  }

  predicate Precedes(w: TamperWindow, v: TamperWindow) {
    || w.earliestDisagreeing.rolledAt < v.earliestDisagreeing.rolledAt
    || (w.earliestDisagreeing.rolledAt == v.earliestDisagreeing.rolledAt && w.shardId <= v.shardId)
  }

  /** The first of the sorted windows: earliest disagreeing roll, lowest shard among equals. */
  lemma {:induction false} SortedFirstIsEarliest(ws: seq<TamperWindow>)
    requires ws != []
    requires forall i, j :: 0 <= i < j < |ws| ==> ws[i].shardId < ws[j].shardId
    ensures SortWindows(ws)[0] in ws
    ensures forall v :: v in ws ==> Precedes(SortWindows(ws)[0], v)
  {
    if |ws| > 1 {
      SortedFirstIsEarliest(ws[1..]);
      assert ws == [ws[0]] + ws[1..];
    }
  }

  lemma AllOkIffSound(c: Crypto, rows: seq<AuditEntry>, findings: seq<ShardFinding>)
    requires FindingsOk(c, rows, findings)
    ensures (forall f :: f in findings ==> f.ok) <==> Sound(c, rows)
  {
    hide FirstBroken;
    forall s | (forall f :: f in findings ==> f.ok) && 0 <= s < NUM_SHARDS ensures Chained(c, ChainOrder(rows, s)) {
      assert findings[s] in findings;
      assert FindingOk(c, rows, s, findings[s]);
    }
    forall f | Sound(c, rows) && f in findings ensures f.ok {
      var s :| 0 <= s < |findings| && findings[s] == f;
      assert FindingOk(c, rows, s, findings[s]);
    }
  }

  /** `verify_against_anchor`. */
  method VerifyAgainstAnchor(c: Crypto, rows: seq<AuditEntry>, rolls: seq<ChainRoot>, trustedRoot: Option<string>)
    returns (report: VerificationReport)
    ensures FindingsOk(c, rows, report.findings)
    ensures report.structuralOk <==> Sound(c, rows)
    ensures report.computedRoot == ComputeRoot(c, CurrentHeads(rows))
    ensures report.anchorOk == (if trustedRoot.None? then None else Some(report.computedRoot == trustedRoot.value))
    ensures report.anchorOk != Some(false) ==> report.tamperWindow.None?
    ensures report.anchorOk == Some(false) ==>
              (report.tamperWindow.None? <==>
               forall s, k :: 0 <= s < NUM_SHARDS && 0 <= k < |rolls| ==> !Disagrees(rows, rolls[k], s))
    ensures report.tamperWindow.Some? ==>
              var w := report.tamperWindow.value;
              && 0 <= w.shardId < NUM_SHARDS && Locates(w, rows, rolls, w.shardId)
              && forall s, v :: 0 <= s < NUM_SHARDS && Locates(v, rows, rolls, s) ==>
                   Precedes(w, v)
  {
    var findings := StructuralFindings(c, rows);
    var structuralOk := forall f :: f in findings ==> f.ok;
    AllOkIffSound(c, rows, findings);
    var heads := ReadShardHeads(rows);
    var computedRoot := ComputeMerkleRoot(c, Leaves(c, SortHeads(heads)));

    var anchorOk: Option<bool> := None;
    var tamperWindow: Option<TamperWindow> := None;
    if trustedRoot.Some? {
      anchorOk := Some(computedRoot == trustedRoot.value);
      if computedRoot != trustedRoot.value {
        tamperWindow := EarliestWindow(rows, rolls);
      }
    }
    report := VerificationReport(structuralOk, findings, anchorOk, computedRoot, tamperWindow);
  }

  /** The windows of the shards below `shard`, in shard order. */
  ghost predicate WindowsBelow(windows: seq<TamperWindow>, rows: seq<AuditEntry>, rolls: seq<ChainRoot>, shard: int) {
    && (forall i :: 0 <= i < |windows| ==>
          0 <= windows[i].shardId < shard && Locates(windows[i], rows, rolls, windows[i].shardId))
    && (forall i, j :: 0 <= i < j < |windows| ==> windows[i].shardId < windows[j].shardId)
    && (forall s, v :: 0 <= s < shard && Locates(v, rows, rolls, s) ==> v in windows)
  }

  lemma NextWindow(windows: seq<TamperWindow>, rows: seq<AuditEntry>, rolls: seq<ChainRoot>, shard: int, w: TamperWindow)
    requires shard >= 0 && WindowsBelow(windows, rows, rolls, shard) && w.shardId == shard && Locates(w, rows, rolls, shard)
    ensures WindowsBelow(windows + [w], rows, rolls, shard + 1)
  {
    forall s, v | 0 <= s < shard + 1 && Locates(v, rows, rolls, s) ensures v in windows + [w] {
      if s == shard {
        WindowUnique(v, w, rows, rolls, shard);
      }
    }
    hide Locates;
  }

  lemma NoWindow(windows: seq<TamperWindow>, rows: seq<AuditEntry>, rolls: seq<ChainRoot>, shard: int)
    requires shard >= 0 && WindowsBelow(windows, rows, rolls, shard)
    requires forall k :: 0 <= k < |rolls| ==> !Disagrees(rows, rolls[k], shard)
    ensures WindowsBelow(windows, rows, rolls, shard + 1)
  {
  }

  lemma WindowIsLocated(w: TamperWindow, rows: seq<AuditEntry>, rolls: seq<ChainRoot>, shard: int)
    requires Locates(w, rows, rolls, shard)
    ensures w.shardId == shard && exists k :: 0 <= k < |rolls| && Disagrees(rows, rolls[k], shard)
  {
  }

  /** Localise in every shard, sort, take the first. */
  method EarliestWindow(rows: seq<AuditEntry>, rolls: seq<ChainRoot>) returns (r: Option<TamperWindow>)
    ensures r.None? <==> forall s, k :: 0 <= s < NUM_SHARDS && 0 <= k < |rolls| ==> !Disagrees(rows, rolls[k], s)
    ensures r.Some? ==>
              && 0 <= r.value.shardId < NUM_SHARDS && Locates(r.value, rows, rolls, r.value.shardId)
              && forall s, v :: 0 <= s < NUM_SHARDS && Locates(v, rows, rolls, s) ==> Precedes(r.value, v)
  {
    hide Locates, Disagrees, SortWindows, Precedes;
    var windows: seq<TamperWindow> := [];
    for shard := 0 to NUM_SHARDS
      invariant WindowsBelow(windows, rows, rolls, shard)
      invariant windows == [] ==> forall s, k :: 0 <= s < shard && 0 <= k < |rolls| ==> !Disagrees(rows, rolls[k], s)
    {
      var w := BoundTamperWindow(rows, rolls, shard);
      if w.Some? {
        WindowIsLocated(w.value, rows, rolls, shard);
        NextWindow(windows, rows, rolls, shard, w.value);
        windows := windows + [w.value];
      } else {
        NoWindow(windows, rows, rolls, shard);
      }
    }
    if windows != [] {
      SortedFirstIsEarliest(windows);
      WindowIsLocated(windows[0], rows, rolls, windows[0].shardId);
    }
    var sorted := SortWindows(windows);
    r := if sorted != [] then Some(sorted[0]) else None;
  }

  // ----- runs of the honest system -----

  datatype Step =
    | Append(request: Request, now: int, id: nat)
    | Roll(rollId: nat, rolledAt: int)

  datatype World = World(rows: seq<AuditEntry>, rolls: seq<ChainRoot>)

  function Apply(c: Crypto, w: World, step: Step): World {
    match step
    case Append(q, now, id) => w.(rows := w.rows + [Appended(c, w.rows, q, now, id)])
    case Roll(id, at) =>
      var heads := CurrentHeads(w.rows);
      w.(rolls := w.rolls + [ChainRoot(id, ComputeRoot(c, heads), at, heads)])
  }

  function Run(c: Crypto, w: World, steps: seq<Step>): World
    decreases |steps|
  {
    if steps == [] then w else Run(c, Apply(c, w, steps[0]), steps[1..])
  }

  /** The clock never repeats nor steps back within a shard. */
  ghost predicate ClockAdvances(c: Crypto, w: World, step: Step) {
    step.Append? ==>
      var last := Latest(w.rows, ResolveShard(c, step.request));
      last.None? || last.value.at < step.now
  }

  ghost predicate ClockAdvancesAlong(c: Crypto, w: World, steps: seq<Step>)
    decreases |steps|
  {
    steps != [] ==> ClockAdvances(c, w, steps[0]) && ClockAdvancesAlong(c, Apply(c, w, steps[0]), steps[1..])
  }

  ghost predicate Honest(c: Crypto, w: World) {
    && Sound(c, w.rows)
    && (forall k, s :: 0 <= k < |w.rolls| && 0 <= s < NUM_SHARDS ==> !Disagrees(w.rows, w.rolls[k], s))
    && (forall k :: 0 <= k < |w.rolls| ==> w.rolls[k].root == ComputeRoot(c, w.rolls[k].shardHeads))
  }

  lemma AppendKeepsHonest(c: Crypto, w: World, step: Step)
    requires Honest(c, w) && ClockAdvances(c, w, step) && step.Append?
    ensures Honest(c, Apply(c, w, step))
    ensures forall s :: 0 <= s < NUM_SHARDS ==> ChainOrder(w.rows, s) <= ChainOrder(Apply(c, w, step).rows, s)
  {
    var w' := Apply(c, w, step);
    forall s | 0 <= s < NUM_SHARDS
      ensures Chained(c, ChainOrder(w'.rows, s)) && ChainOrder(w.rows, s) <= ChainOrder(w'.rows, s)
    {
      AppendExtends(c, w.rows, step.request, step.now, step.id, s);
    }
    forall k, s | 0 <= k < |w.rolls| && 0 <= s < NUM_SHARDS ensures !Disagrees(w'.rows, w.rolls[k], s) {
      assert !Disagrees(w.rows, w.rolls[k], s);
      assert forall e :: e in w.rows ==> e in w'.rows;
    }
  }

  /** A roll does not disagree with the log it was taken of. */
  lemma CurrentRollAgrees(rows: seq<AuditEntry>, roll: ChainRoot, s: int)
    requires 0 <= s < NUM_SHARDS && roll.shardHeads == CurrentHeads(rows)
    ensures !Disagrees(rows, roll, s)
  {
    RecordedHeadOfCurrent(rows, s);
    ChainOrderHolds(rows, s);
    var es := ChainOrder(rows, s);
    if es != [] {
      assert es[|es| - 1] in es;
    }
  }

  lemma RollKeepsHonest(c: Crypto, w: World, step: Step)
    requires Honest(c, w) && step.Roll?
    ensures Honest(c, Apply(c, w, step))
  {
    var w' := Apply(c, w, step);
    forall k, s | 0 <= k < |w'.rolls| && 0 <= s < NUM_SHARDS ensures !Disagrees(w'.rows, w'.rolls[k], s) {
      if k < |w.rolls| {
        assert !Disagrees(w.rows, w.rolls[k], s);
      } else {
        CurrentRollAgrees(w.rows, w'.rolls[k], s);
      }
    }
  }

  /**
   Along every run of appends and rolls with an advancing clock: every shard keeps verifying,
   what was written stays where it was, no roll ever disagrees (so localisation finds
   nothing), and every stored root is recomputable from the heads stored beside it.
   */
  lemma {:induction false} HonestRunsVerify(c: Crypto, w: World, steps: seq<Step>)
    requires Honest(c, w) && ClockAdvancesAlong(c, w, steps)
    ensures Honest(c, Run(c, w, steps))
    ensures forall s :: 0 <= s < NUM_SHARDS ==> ChainOrder(w.rows, s) <= ChainOrder(Run(c, w, steps).rows, s)
    decreases |steps|
  {
    if steps != [] {
      var w' := Apply(c, w, steps[0]);
      if steps[0].Append? {
        AppendKeepsHonest(c, w, steps[0]);
      } else {
        RollKeepsHonest(c, w, steps[0]);
      }
      HonestRunsVerify(c, w', steps[1..]);
    }
  }

  // ----- what a disagreeing roll proves -----

  /** The system's own steps, and someone rewriting the table of entries at will. */
  datatype Event = Does(step: Step) | Rewrites(rows: seq<AuditEntry>)

  function Happens(c: Crypto, w: World, e: Event): World {
    match e
    case Does(step) => Apply(c, w, step)
    case Rewrites(rows) => w.(rows := rows)
  }

  function History(c: Crypto, w: World, events: seq<Event>): World {
    if events == [] then w else Happens(c, History(c, w, events[..|events| - 1]), events[|events| - 1])
  }

  ghost predicate NoneDisagrees(w: World) {
    forall k, s :: 0 <= k < |w.rolls| && 0 <= s < NUM_SHARDS ==> !Disagrees(w.rows, w.rolls[k], s)
  }

  /** Event `i` comes after roll `k`, and takes away the head that the roll recorded for the shard. */
  ghost predicate TakesAway(c: Crypto, w: World, events: seq<Event>, i: nat, k: nat, s: int) {
    && i < |events| && events[i].Rewrites? && k < |History(c, w, events[..i]).rolls|
    && !Disagrees(History(c, w, events[..i]).rows, History(c, w, events[..i]).rolls[k], s)
    && Disagrees(History(c, w, events[..i + 1]).rows, History(c, w, events[..i]).rolls[k], s)
  }

  /** A step of the system itself makes no roll disagree, whatever the clock and whatever the shards look like. */
  lemma StepTakesNothingAway(c: Crypto, w: World, step: Step, k: nat, s: int)
    requires 0 <= s < NUM_SHARDS && k < |Apply(c, w, step).rolls|
    requires Disagrees(Apply(c, w, step).rows, Apply(c, w, step).rolls[k], s)
    ensures k < |w.rolls| && Apply(c, w, step).rolls[k] == w.rolls[k] && Disagrees(w.rows, w.rolls[k], s)
  {
    hide ComputeRoot;
    if step.Append? {
      assert forall e :: e in w.rows ==> e in Apply(c, w, step).rows;
    } else {
      CurrentRollAgrees(w.rows, Apply(c, w, step).rolls[|w.rolls|], s);
    }
  }

  /** Along every run of appends and rolls no roll ever disagrees; neither the clock nor the shards matter. */
  lemma {:induction false} RunsNeverDisagree(c: Crypto, w: World, steps: seq<Step>)
    requires NoneDisagrees(w)
    ensures NoneDisagrees(Run(c, w, steps))
    decreases |steps|
  {
    hide Apply, Disagrees;
    if steps != [] {
      forall k, s | 0 <= k < |Apply(c, w, steps[0]).rolls| && 0 <= s < NUM_SHARDS
        ensures !Disagrees(Apply(c, w, steps[0]).rows, Apply(c, w, steps[0]).rolls[k], s)
      {
        if Disagrees(Apply(c, w, steps[0]).rows, Apply(c, w, steps[0]).rolls[k], s) {
          StepTakesNothingAway(c, w, steps[0], k, s);
        }
      }
      RunsNeverDisagree(c, Apply(c, w, steps[0]), steps[1..]);
    }
  }

  /**
   A roll that disagrees proves a rewrite of the entries, and one that came after that roll:
   until then its head was still there.
   */
  lemma {:induction false} DisagreementProvesLaterRewrite(c: Crypto, w: World, events: seq<Event>, k: nat, s: int)
      returns (i: nat)
    requires NoneDisagrees(w) && 0 <= s < NUM_SHARDS && k < |History(c, w, events).rolls|
    requires Disagrees(History(c, w, events).rows, History(c, w, events).rolls[k], s)
    ensures TakesAway(c, w, events, i, k, s)
    decreases |events|
  {
    hide Disagrees, Apply;
    var n := |events| - 1;
    if events == [] {
      assert false;
    }
    var before := History(c, w, events[..n]);
    assert events[..n + 1] == events;
    if events[n].Does? {
      StepTakesNothingAway(c, before, events[n].step, k, s);
    }
    if Disagrees(before.rows, before.rolls[k], s) {
      i := DisagreementProvesLaterRewrite(c, w, events[..n], k, s);
      assert events[..n][..i] == events[..i] && events[..n][..i + 1] == events[..i + 1];
    } else {
      i := n;
    }
  }

  /** And there is such a rewrite for every log and shard: take a roll, then empty the table. */
  lemma EmptyingComesLater(c: Crypto, w: World, id: nat, at: int, s: int)
    requires NoneDisagrees(w) && 0 <= s < NUM_SHARDS && ChainOrder(w.rows, s) != []
    ensures var events := [Does(Roll(id, at))] + [Rewrites([])];
            |History(c, w, events).rolls| == |w.rolls| + 1 && TakesAway(c, w, events, 1, |w.rolls|, s)
  {
    hide ComputeRoot;
    var roll, events := [Does(Roll(id, at))], [Does(Roll(id, at))] + [Rewrites([])];
    assert roll[..0] == [] && History(c, w, []) == w;
    assert events[..1] == roll && events[..2] == events;
    var mid := History(c, w, roll);
    assert mid == Apply(c, w, Roll(id, at));
    CurrentRollAgrees(w.rows, mid.rolls[|w.rolls|], s);
    RecordedHeadOfCurrent(w.rows, s);
  }

  // ----- what a window says of a tampered log -----

  /** The log at each roll of a run. */
  function LogsAtRolls(c: Crypto, w: World, steps: seq<Step>): seq<seq<AuditEntry>>
    decreases |steps|
  {
    if steps == [] then []
    else (if steps[0].Roll? then [w.rows] else []) + LogsAtRolls(c, Apply(c, w, steps[0]), steps[1..])
  }

  ghost predicate ShardsGrow(a: seq<AuditEntry>, b: seq<AuditEntry>) {
    forall s :: 0 <= s < NUM_SHARDS ==> ChainOrder(a, s) <= ChainOrder(b, s)
  }

  /** The rolls recorded the heads of these logs, which verify and only grow. */
  ghost predicate Recorded(c: Crypto, rolls: seq<ChainRoot>, logs: seq<seq<AuditEntry>>) {
    && |rolls| == |logs|
    && (forall k :: 0 <= k < |logs| ==> Sound(c, logs[k]) && rolls[k].shardHeads == CurrentHeads(logs[k]))
    && (forall j, k :: 0 <= j < k < |logs| ==> ShardsGrow(logs[j], logs[k]))
  }

  ghost predicate RecordedSoFar(c: Crypto, w: World, logs: seq<seq<AuditEntry>>) {
    Recorded(c, w.rolls, logs) && forall k :: 0 <= k < |logs| ==> ShardsGrow(logs[k], w.rows)
  }

  lemma StepIsRecorded(c: Crypto, w: World, step: Step, logs: seq<seq<AuditEntry>>)
    requires Honest(c, w) && ClockAdvances(c, w, step) && RecordedSoFar(c, w, logs)
    ensures RecordedSoFar(c, Apply(c, w, step), logs + if step.Roll? then [w.rows] else [])
  {
    hide Sound, CurrentHeads, ChainOrder, Disagrees, ComputeRoot, Appended;
    if step.Append? {
      AppendKeepsHonest(c, w, step);
      assert logs + [] == logs;
      forall k | 0 <= k < |logs| ensures ShardsGrow(logs[k], Apply(c, w, step).rows) {
        assert ShardsGrow(logs[k], w.rows);
      }
    } else {
      assert ShardsGrow(w.rows, w.rows);
    }
  }

  /** Along every honest run the rolls are those of logs that verified and only grew. */
  lemma {:induction false} HonestRunsRecord(c: Crypto, w: World, steps: seq<Step>, logs: seq<seq<AuditEntry>>)
    requires Honest(c, w) && ClockAdvancesAlong(c, w, steps) && RecordedSoFar(c, w, logs)
    ensures RecordedSoFar(c, Run(c, w, steps), logs + LogsAtRolls(c, w, steps))
    decreases |steps|
  {
    hide Honest, RecordedSoFar, Apply;
    if steps == [] {
      assert logs + [] == logs;
    } else {
      var added := if steps[0].Roll? then [w.rows] else [];
      StepIsRecorded(c, w, steps[0], logs);
      HonestRunsVerify(c, w, [steps[0]]);
      RunOne(c, w, steps[0]);
      HonestRunsRecord(c, Apply(c, w, steps[0]), steps[1..], logs + added);
      assert logs + added + LogsAtRolls(c, Apply(c, w, steps[0]), steps[1..]) == logs + LogsAtRolls(c, w, steps);
    }
  }

  lemma RunOne(c: Crypto, w: World, step: Step)
    ensures Run(c, w, [step]) == Apply(c, w, step)
    ensures ClockAdvancesAlong(c, w, [step]) == ClockAdvances(c, w, step)
  {
    assert [step][1..] == [];
    assert Run(c, Apply(c, w, step), []) == Apply(c, w, step);
    assert ClockAdvancesAlong(c, Apply(c, w, step), []);
  }

  /** The first place at which the texts of a chain are not those of another. */
  ghost predicate FirstChange(c: Crypto, es: seq<AuditEntry>, now: seq<AuditEntry>, p: nat) {
    && p < |es| && p <= |now|
    && (forall i :: 0 <= i < p ==> Materials(c, now)[i] == Materials(c, es)[i])
    && (p < |now| ==> Materials(c, now)[p] != Materials(c, es)[p])
  }

  lemma {:induction false} FirstDifference(xs: seq<string>, ys: seq<string>, n: nat) returns (p: nat)
    requires n <= |xs| && n <= |ys| && (forall i :: 0 <= i < n ==> ys[i] == xs[i]) && !(xs <= ys)
    ensures n <= p < |xs| && p <= |ys| && (forall i :: 0 <= i < p ==> ys[i] == xs[i]) && (p < |ys| ==> ys[p] != xs[p])
    decreases |xs| - n
  {
    assert xs[..n] == ys[..n];
    if n < |xs| && n < |ys| && ys[n] == xs[n] {
      p := FirstDifference(xs, ys, n + 1);
    } else {
      p := n;
    }
  }

  lemma FirstChangeExists(c: Crypto, es: seq<AuditEntry>, now: seq<AuditEntry>, n: nat) returns (p: nat)
    requires n <= |es| && n <= |now|
    requires forall i :: 0 <= i < n ==> Materials(c, now)[i] == Materials(c, es)[i]
    requires !(Materials(c, es) <= Materials(c, now))
    ensures FirstChange(c, es, now, p) && n <= p
  {
    assert |Materials(c, es)| == |es| && |Materials(c, now)| == |now|;
    hide Materials;
    p := FirstDifference(Materials(c, es), Materials(c, now), n);
  }

  /** The three things the lookup can say of one roll of a growing log. */
  lemma LookupSays(c: Crypto, before: seq<AuditEntry>, now: seq<AuditEntry>, roll: ChainRoot, s: int)
    requires WellFormed(c) && Sound(c, before) && Sound(c, now) && 0 <= s < NUM_SHARDS
    requires roll.shardHeads == CurrentHeads(before) && !Collision(c, HashedBy(c, before), HashedBy(c, now))
    ensures Disagrees(now, roll, s) ==> !(Materials(c, ChainOrder(before, s)) <= Materials(c, ChainOrder(now, s)))
    ensures Agrees(now, roll, s) ==> Materials(c, ChainOrder(before, s)) <= Materials(c, ChainOrder(now, s))
    ensures !Disagrees(now, roll, s) && !Agrees(now, roll, s) ==> ChainOrder(before, s) == []
  {
    RecordedHeadOfCurrent(before, s);
    if ChainOrder(before, s) != [] {
      RollAgreesIffPrefix(c, before, now, roll, s);
    }
  }

  lemma RecordedAt(c: Crypto, rolls: seq<ChainRoot>, logs: seq<seq<AuditEntry>>, j: nat, k: nat)
    requires Recorded(c, rolls, logs) && j <= k < |rolls|
    ensures |rolls| == |logs| && Sound(c, logs[j]) && rolls[j].shardHeads == CurrentHeads(logs[j])
    ensures j < k ==> ShardsGrow(logs[j], logs[k])
  {
  }

  /**
   A window over the rolls of an honest run says when the first changed entry was written. Let
   the log verify now, rewritten or not. What the shard held at the agreeing roll is intact,
   and the first entry that changed is one that was appended between the agreeing roll and the
   disagreeing one (the first in which the shard held anything, when no roll agrees).
   */
  lemma WindowBoundsFirstChange(c: Crypto, rolls: seq<ChainRoot>, logs: seq<seq<AuditEntry>>, now: seq<AuditEntry>,
                                s: int, w: TamperWindow) returns (k: nat, p: nat)
    requires WellFormed(c) && Recorded(c, rolls, logs) && Sound(c, now) && 0 <= s < NUM_SHARDS
    requires NoCollisionWith(c, logs, now) && |rolls| == |logs|
    requires Locates(w, now, rolls, s)
    ensures k < |logs| && w.earliestDisagreeing == rolls[k]
    ensures FirstChange(c, ChainOrder(logs[k], s), ChainOrder(now, s), p)
    ensures w.lastAgreeing.None? ==> forall j :: 0 <= j < k ==> ChainOrder(logs[j], s) == []
    ensures w.lastAgreeing.Some? ==> exists j :: 0 <= j < k && w.lastAgreeing.value == rolls[j] && |ChainOrder(logs[j], s)| <= p
  {
    k :| LocatesAt(w, now, rolls, s, k);
    hide Sound, HashedBy, Materials, Collision, CurrentHeads, Agrees, Disagrees, LastAgreeing, FirstChange, WellFormed,
         ChainOrder, ShardsGrow, Recorded, NoCollisionWith;
    LastAgreeingIsNearest(now, rolls, s, k);
    if w.lastAgreeing.None? {
      p := ChangeFromStart(c, rolls, logs, now, s, k);
    } else {
      var j :| 0 <= j < k && w.lastAgreeing.value == rolls[j] && Agrees(now, rolls[j], s);
      p := ChangeSince(c, rolls, logs, now, s, j, k);
    }
  }

  ghost predicate NoCollisionWith(c: Crypto, logs: seq<seq<AuditEntry>>, now: seq<AuditEntry>) {
    forall i :: 0 <= i < |logs| ==> !Collision(c, HashedBy(c, logs[i]), HashedBy(c, now))
  }

  lemma ChangeSince(c: Crypto, rolls: seq<ChainRoot>, logs: seq<seq<AuditEntry>>, now: seq<AuditEntry>, s: int, j: nat, k: nat)
      returns (p: nat)
    requires WellFormed(c) && Recorded(c, rolls, logs) && |rolls| == |logs| && Sound(c, now) && 0 <= s < NUM_SHARDS
    requires NoCollisionWith(c, logs, now) && j < k < |logs|
    requires Agrees(now, rolls[j], s) && Disagrees(now, rolls[k], s)
    ensures FirstChange(c, ChainOrder(logs[k], s), ChainOrder(now, s), p) && |ChainOrder(logs[j], s)| <= p
  {
    hide Sound, HashedBy, Materials, Collision, CurrentHeads, Agrees, Disagrees, LastAgreeing, FirstChange, WellFormed,
         ChainOrder, ShardsGrow, Recorded;
    RecordedAt(c, rolls, logs, j, k);
    RecordedAt(c, rolls, logs, k, k);
    p := ChangeBetween(c, logs[j], logs[k], now, rolls[j], rolls[k], s);
  }

  lemma ChangeFromStart(c: Crypto, rolls: seq<ChainRoot>, logs: seq<seq<AuditEntry>>, now: seq<AuditEntry>, s: int, k: nat)
      returns (p: nat)
    requires WellFormed(c) && Recorded(c, rolls, logs) && |rolls| == |logs| && Sound(c, now) && 0 <= s < NUM_SHARDS
    requires NoCollisionWith(c, logs, now)
    requires k < |logs| && Disagrees(now, rolls[k], s)
    requires forall j :: 0 <= j < k ==> !Disagrees(now, rolls[j], s) && !Agrees(now, rolls[j], s)
    ensures FirstChange(c, ChainOrder(logs[k], s), ChainOrder(now, s), p)
    ensures forall j :: 0 <= j < k ==> ChainOrder(logs[j], s) == []
  {
    hide Sound, HashedBy, Materials, Collision, CurrentHeads, Agrees, Disagrees, LastAgreeing, FirstChange, WellFormed,
         ChainOrder, ShardsGrow, Recorded;
    forall j | 0 <= j < k ensures ChainOrder(logs[j], s) == [] {
      RecordedAt(c, rolls, logs, j, k);
      LookupSays(c, logs[j], now, rolls[j], s);
    }
    RecordedAt(c, rolls, logs, k, k);
    LookupSays(c, logs[k], now, rolls[k], s);
    p := FirstChangeExists(c, ChainOrder(logs[k], s), ChainOrder(now, s), 0);
  }

  lemma ChangeBetween(c: Crypto, early: seq<AuditEntry>, late: seq<AuditEntry>, now: seq<AuditEntry>,
                      agreeing: ChainRoot, disagreeing: ChainRoot, s: int) returns (p: nat)
    requires WellFormed(c) && Sound(c, early) && Sound(c, late) && Sound(c, now) && 0 <= s < NUM_SHARDS
    requires agreeing.shardHeads == CurrentHeads(early) && disagreeing.shardHeads == CurrentHeads(late)
    requires !Collision(c, HashedBy(c, early), HashedBy(c, now)) && !Collision(c, HashedBy(c, late), HashedBy(c, now))
    requires ShardsGrow(early, late) && Agrees(now, agreeing, s) && Disagrees(now, disagreeing, s)
    ensures FirstChange(c, ChainOrder(late, s), ChainOrder(now, s), p) && |ChainOrder(early, s)| <= p
  {
    hide Sound, HashedBy, Materials, Collision, CurrentHeads, Agrees, Disagrees, FirstChange, WellFormed, ChainOrder;
    LookupSays(c, early, now, agreeing, s);
    LookupSays(c, late, now, disagreeing, s);
    CommonPrefix(c, ChainOrder(early, s), ChainOrder(late, s), ChainOrder(now, s));
    p := FirstChangeExists(c, ChainOrder(late, s), ChainOrder(now, s), |ChainOrder(early, s)|);
  }

  lemma CommonPrefix(c: Crypto, xs: seq<AuditEntry>, es: seq<AuditEntry>, ys: seq<AuditEntry>)
    requires xs <= es && Materials(c, xs) <= Materials(c, ys)
    ensures |xs| <= |es| && |xs| <= |ys|
    ensures forall i :: 0 <= i < |xs| ==> Materials(c, ys)[i] == Materials(c, es)[i]
  {
    PrefixOfChain(c, es, |xs|);
    assert es[..|xs|] == xs;
    assert |Materials(c, xs)| == |xs| && |Materials(c, ys)| == |ys|;
    forall i | 0 <= i < |xs| ensures Materials(c, ys)[i] == Materials(c, es)[i] {
      assert Materials(c, xs)[i] == Materials(c, ys)[i] && Materials(c, xs)[i] == Materials(c, es)[i];
    }
  }
}
