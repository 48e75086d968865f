/**
 The sharded, hash-chained audit log (libs/audit/src/landaudit/chain.py).

 SHA-256 and `datetime.isoformat` are parameters. Nothing is assumed of them beyond what
 `WellFormed` says: a digest is 64 characters long and holds no separator. No theorem
 assumes that the digest is injective; each one says which two strings, out of those that
 were really hashed, would have to collide for its conclusion to fail.
 */
module HashChain {
  import opened Wrappers

  const NUM_SHARDS := 8
  const SYSTEM_SHARD_ID := 0
  const SYSTEM_SHARD_KEY := "system"
  const DIGEST_LENGTH := 64

  datatype Crypto = Crypto(digest: string -> string, isoFormat: int -> string)

  predicate IsDigest(d: string) {
    |d| == DIGEST_LENGTH && '|' !in d
  }

  ghost predicate WellFormed(c: Crypto) {
    forall s :: IsDigest(c.digest(s))
  }

  /** Two different strings, one from each set, with one digest. */
  ghost predicate Collision(c: Crypto, xs: set<string>, ys: set<string>) {
    exists x, y :: x in xs && y in ys && x != y && c.digest(x) == c.digest(y)
  }

  // ----- rows, and the order every query reads them in -----

  datatype AuditEntry = AuditEntry(
    id: nat, shardId: int, prevHash: Option<string>, hash: string, actor: string, action: string,
    subject: Option<string>, purpose: Option<string>, valueHash: Option<string>, at: int,
    district: Option<string>)

  /** ORDER BY at ASC, id ASC. */
  predicate Before(a: AuditEntry, b: AuditEntry) {
    a.at < b.at || (a.at == b.at && a.id < b.id)
  }

  predicate Sorted(es: seq<AuditEntry>) {
    forall i, j :: 0 <= i < j < |es| ==> Before(es[i], es[j])
  }

  /** How many rows of `es` come before `e`. */
  function Rank(es: seq<AuditEntry>, e: AuditEntry): (k: nat)
    ensures k <= |es|
  {
    if es == [] || Before(es[|es| - 1], e) then |es| else Rank(es[..|es| - 1], e)
  }

  function Insert(es: seq<AuditEntry>, e: AuditEntry): seq<AuditEntry> {
    var k := Rank(es, e);
    es[..k] + [e] + es[k..]
  }

  /** What `SELECT ... WHERE shard_id = s ORDER BY at, id` returns on the table `rows`. */
  function ChainOrder(rows: seq<AuditEntry>, shard: int): seq<AuditEntry> {
    if rows == [] then []
    else
      var n := |rows| - 1;
      var rest := ChainOrder(rows[..n], shard);
      if rows[n].shardId == shard then Insert(rest, rows[n]) else rest
  }

  /** ORDER BY at DESC, id DESC LIMIT 1. */
  function Latest(rows: seq<AuditEntry>, shard: int): Option<AuditEntry> {
    var es := ChainOrder(rows, shard);
    if es == [] then None else Some(es[|es| - 1])
  }

  /** (id, shard_id) is the primary key. */
  ghost predicate DistinctIds(rows: seq<AuditEntry>) {
    forall i, j :: 0 <= i < j < |rows| ==> rows[i].id != rows[j].id || rows[i].shardId != rows[j].shardId
  }

  lemma {:induction false} RankSplits(es: seq<AuditEntry>, e: AuditEntry)
    requires Sorted(es)
    requires forall i :: 0 <= i < |es| ==> Before(es[i], e) || Before(e, es[i])
    ensures forall i :: 0 <= i < Rank(es, e) ==> Before(es[i], e)
    ensures forall i :: Rank(es, e) <= i < |es| ==> Before(e, es[i])
  {
    if es != [] && !Before(es[|es| - 1], e) {
      RankSplits(es[..|es| - 1], e);
    }
  }

  lemma SortedAround(es: seq<AuditEntry>, e: AuditEntry, k: nat)
    requires Sorted(es) && k <= |es|
    requires forall i :: 0 <= i < k ==> Before(es[i], e)
    requires forall i :: k <= i < |es| ==> Before(e, es[i])
    ensures Sorted(es[..k] + [e] + es[k..])
  {
    var r := es[..k] + [e] + es[k..];
    forall i, j | 0 <= i < j < |r| ensures Before(r[i], r[j]) {
      var x, y := r[i], r[j];
      assert x == (if i < k then es[i] else if i == k then e else es[i - 1]);
      assert y == (if j < k then es[j] else if j == k then e else es[j - 1]);
    }
  }

  lemma {:induction false} ChainOrderHolds(rows: seq<AuditEntry>, shard: int)
    ensures forall e :: e in ChainOrder(rows, shard) <==> e in rows && e.shardId == shard
  {
    if rows != [] {
      var n := |rows| - 1;
      ChainOrderHolds(rows[..n], shard);
      assert rows == rows[..n] + [rows[n]];
      InsertHolds(ChainOrder(rows[..n], shard), rows[n]);
    }
  }

  lemma InsertHolds(es: seq<AuditEntry>, e: AuditEntry)
    ensures forall f :: f in Insert(es, e) <==> f in es || f == e
  {
    var k := Rank(es, e);
    assert es == es[..k] + es[k..];
  }

  /** `ChainOrder` is the ORDER BY it stands for: sorted, and exactly the rows of the shard. */
  lemma {:induction false} ChainOrderIsTheQuery(rows: seq<AuditEntry>, shard: int)
    requires DistinctIds(rows)
    ensures Sorted(ChainOrder(rows, shard))
    ensures forall e :: e in ChainOrder(rows, shard) <==> e in rows && e.shardId == shard
  {
    if rows != [] {
      var n := |rows| - 1;
      var rest := ChainOrder(rows[..n], shard);
      ChainOrderIsTheQuery(rows[..n], shard);
      ChainOrderHolds(rows, shard);
      assert rows == rows[..n] + [rows[n]];
      if rows[n].shardId == shard {
        forall i | 0 <= i < |rest| ensures Before(rest[i], rows[n]) || Before(rows[n], rest[i]) {
          assert rest[i] in rows[..n];
        }
        RankSplits(rest, rows[n]);
        SortedAround(rest, rows[n], Rank(rest, rows[n]));
      }
    }
  }

  // ----- hashing -----

  /** `"|".join(parts)`. */
  function Join(parts: seq<string>): string {
    if parts == [] then ""
    else if |parts| == 1 then parts[0]
    else parts[0] + "|" + Join(parts[1..])
  }

  function Fields(c: Crypto, e: AuditEntry): seq<string> {
    [e.actor, e.action, OrEmpty(e.subject), OrEmpty(e.purpose), OrEmpty(e.valueHash), c.isoFormat(e.at)]
  }

  function Material(c: Crypto, prev: Option<string>, e: AuditEntry): string {
    Join([OrEmpty(prev)] + Fields(c, e))
  }

  function ComputeHash(c: Crypto, prev: Option<string>, e: AuditEntry): string {
    c.digest(Material(c, prev, e))
  }

  function HexValue(digits: string): nat {
    if digits == "" then 0
    else
      var d := digits[|digits| - 1];
      16 * HexValue(digits[..|digits| - 1]) +
      (if '0' <= d <= '9' then (d - '0') as nat else if 'a' <= d <= 'f' then 10 + (d - 'a') as nat else 0)
  }

  function ShardFor(c: Crypto, key: string): (s: int)
    ensures 0 <= s < NUM_SHARDS
  {
    if key == SYSTEM_SHARD_KEY then SYSTEM_SHARD_ID else HexValue(c.digest(key)) % NUM_SHARDS
  }

  function ShardKeyFor(district: Option<string>, batchId: Option<string>): string {
    if Truthy(district) then "district:" + district.value
    else if Truthy(batchId) then "batch:" + batchId.value
    else SYSTEM_SHARD_KEY
  }

  /** The hashed text, written out: seven texts in this order, missing ones empty. */
  lemma HashIs(c: Crypto, prev: Option<string>, e: AuditEntry)
    ensures ComputeHash(c, prev, e) == c.digest(Join(
              [if prev.Some? then prev.value else "", e.actor, e.action,
               if e.subject.Some? then e.subject.value else "", if e.purpose.Some? then e.purpose.value else "",
               if e.valueHash.Some? then e.valueHash.value else "", c.isoFormat(e.at)]))
  {
    assert [OrEmpty(prev)] + Fields(c, e)
        == [OrEmpty(prev), e.actor, e.action, OrEmpty(e.subject), OrEmpty(e.purpose), OrEmpty(e.valueHash), c.isoFormat(e.at)];
  }

  /** Sixteen is twice eight: the shard of a key is the last hex digit of its digest, modulo eight. */
  lemma ShardIsLastDigit(c: Crypto, key: string, digit: nat)
    requires key != "system" && c.digest(key) != "" && digit < 16
    requires c.digest(key)[|c.digest(key)| - 1] == "0123456789abcdef"[digit]
    ensures ShardFor(c, key) == digit % 8
    ensures ShardFor(c, "system") == 0
  {
    var d := c.digest(key);
    HexEndsIn(d, digit);
    ModuloEight(HexValue(d[..|d| - 1]), digit);
    hide HexValue;
  }

  lemma HexEndsIn(digits: string, digit: nat)
    requires digits != "" && digit < 16 && digits[|digits| - 1] == "0123456789abcdef"[digit]
    ensures HexValue(digits) == 16 * HexValue(digits[..|digits| - 1]) + digit
  {
    var last := digits[|digits| - 1];
    if digit < 10 {
      assert '0' <= last <= '9' && (last - '0') as nat == digit;
    } else {
      assert 'a' <= last <= 'f' && (last - 'a') as nat == digit - 10;
    }
  }

  lemma ModuloEight(a: nat, digit: nat)
    ensures (16 * a + digit) % 8 == digit % 8
  {
    assert (16 * a + digit) - 8 * (2 * a) == digit;
  }

  /** A district goes before a batch, empty ones count as missing, and keys of different kinds or names differ. */
  lemma ShardKeys(district: Option<string>, batchId: Option<string>, name: string)
    requires name != ""
    ensures ShardKeyFor(Some(name), batchId) == "district:" + name
    ensures ShardKeyFor(None, Some(name)) == ShardKeyFor(Some(""), Some(name)) == "batch:" + name
    ensures ShardKeyFor(district, batchId) == "system" <==>
              (district == None || district == Some("")) && (batchId == None || batchId == Some(""))
  {
    assert ("district:" + name)[0] == 'd' && ("batch:" + name)[0] == 'b' && "system"[0] == 's';
    if Truthy(district) {
      assert ("district:" + district.value)[0] == 'd';
    } else if Truthy(batchId) {
      assert ("batch:" + batchId.value)[0] == 'b';
    }
  }

  // ----- the chain of one shard -----

  /** The hash that entry `i` must name as its predecessor. */
  function HeadBefore(es: seq<AuditEntry>, i: nat): Option<string>
    requires i <= |es|
  {
    if i == 0 then None else Some(es[i - 1].hash)
  }

  predicate LinkOk(c: Crypto, es: seq<AuditEntry>, i: nat)
    requires i < |es|
  {
    es[i].prevHash == HeadBefore(es, i) && es[i].hash == ComputeHash(c, HeadBefore(es, i), es[i])
  }

  predicate Chained(c: Crypto, es: seq<AuditEntry>) {
    forall i :: 0 <= i < |es| ==> LinkOk(c, es, i)
  }

  function HeadHash(es: seq<AuditEntry>): Option<string> {
    HeadBefore(es, |es|)
  }

  /** Everything the walk over one shard hashes. */
  function Materials(c: Crypto, es: seq<AuditEntry>): seq<string> {
    seq(|es|, i requires 0 <= i < |es| => Material(c, HeadBefore(es, i), es[i]))
  }

  ghost function HashedByChain(c: Crypto, es: seq<AuditEntry>): set<string> {
    SetOf(Materials(c, es))
  }

  /** The first entry of a walk that does not link up. */
  ghost predicate FirstBroken(c: Crypto, es: seq<AuditEntry>, e: AuditEntry) {
    exists k :: 0 <= k < |es| && es[k] == e && !LinkOk(c, es, k) && Chained(c, es[..k])
  }

  /** `verify_shard`: `None` when the walk succeeds, else the entry the exception names. */
  method VerifyShard(c: Crypto, rows: seq<AuditEntry>, shard: int) returns (broken: Option<AuditEntry>)
    ensures broken.None? <==> Chained(c, ChainOrder(rows, shard))
    ensures broken.Some? ==> FirstBroken(c, ChainOrder(rows, shard), broken.value)
  {
    var entries := ChainOrder(rows, shard);
    var prevHash: Option<string> := None;
    for k := 0 to |entries|
      invariant prevHash == HeadBefore(entries, k)
      invariant forall i :: 0 <= i < k ==> LinkOk(c, entries, i)
    {
      var entry := entries[k];
      var expected := ComputeHash(c, prevHash, entry);
      if entry.prevHash != prevHash || entry.hash != expected {
        forall i | 0 <= i < k ensures LinkOk(c, entries[..k], i) {
          assert LinkOk(c, entries, i);
        }
        assert !LinkOk(c, entries, k);
        return Some(entry);
      }
      prevHash := Some(entry.hash);
    }
    return None;
  }

  /** A chain verifies exactly when each entry names the hash of the one before it, the first one none, and hashes that name. */
  lemma ChainedMeans(c: Crypto, es: seq<AuditEntry>)
    ensures Chained(c, es) <==>
              forall i :: 0 <= i < |es| ==>
                && es[i].prevHash == (if i == 0 then None else Some(es[i - 1].hash))
                && es[i].hash == ComputeHash(c, es[i].prevHash, es[i])
  {
    hide ComputeHash;
    if forall i :: 0 <= i < |es| ==>
         && es[i].prevHash == (if i == 0 then None else Some(es[i - 1].hash))
         && es[i].hash == ComputeHash(c, es[i].prevHash, es[i]) {
      assert forall i :: 0 <= i < |es| ==> LinkOk(c, es, i);
    }
    if Chained(c, es) {
      forall i | 0 <= i < |es|
        ensures es[i].prevHash == (if i == 0 then None else Some(es[i - 1].hash))
        ensures es[i].hash == ComputeHash(c, es[i].prevHash, es[i])
      {
        assert LinkOk(c, es, i);
      }
    }
  }

  // ----- what a hash binds -----

  /** Two texts that agree up to their first bar have the same first field. */
  lemma {:induction false} FirstFieldBound(a: string, r: string, b: string, s: string)
    requires '|' !in a && '|' !in b
    requires a + "|" + r == b + "|" + s
    ensures a == b && r == s
  {
    var left, right := a + "|" + r, b + "|" + s;
    assert left[|a|] == '|' && right[|b|] == '|';
    assert forall i :: 0 <= i < |a| ==> left[i] == a[i];
    assert forall i :: 0 <= i < |b| ==> right[i] == b[i];
    assert |a| == |b|;
    assert a == left[..|a|] && b == right[..|b|];
    assert r == left[|a| + 1..] && s == right[|b| + 1..];
  }

  function Bars(text: string): nat {
    if text == "" then 0 else Bars(text[1..]) + if text[0] == '|' then 1 else 0
  }

  function BarsIn(xs: seq<string>): nat {
    if xs == [] then 0 else Bars(xs[0]) + BarsIn(xs[1..])
  }

  lemma {:induction false} BarsConcat(a: string, b: string)
    ensures Bars(a + b) == Bars(a) + Bars(b)
  {
    if a == "" {
      assert a + b == b;
    } else {
      assert (a + b)[1..] == a[1..] + b;
      BarsConcat(a[1..], b);
    }
  }

  lemma {:induction false} NoBars(text: string)
    ensures Bars(text) == 0 <==> '|' !in text
  {
    if text != "" {
      NoBars(text[1..]);
      assert text == [text[0]] + text[1..];
    }
  }

  /** Joining adds one bar between neighbours. */
  lemma {:induction false} BarsOfJoin(xs: seq<string>)
    requires xs != []
    ensures Bars(Join(xs)) == BarsIn(xs) + |xs| - 1
  {
    if |xs| > 1 {
      BarsOfJoin(xs[1..]);
      assert Join(xs) == xs[0] + ("|" + Join(xs[1..]));
      BarsConcat(xs[0], "|" + Join(xs[1..]));
      BarsConcat("|", Join(xs[1..]));
    }
  }

  ghost predicate SeparatorFree(xs: seq<string>) {
    forall i :: 0 <= i < |xs| ==> '|' !in xs[i]
  }

  lemma {:induction false} FreeIffNoBars(xs: seq<string>)
    ensures SeparatorFree(xs) <==> BarsIn(xs) == 0
  {
    if xs != [] {
      NoBars(xs[0]);
      FreeIffNoBars(xs[1..]);
      assert forall i :: 1 <= i < |xs| ==> xs[i] == xs[1..][i - 1];
      assert SeparatorFree(xs) ==> SeparatorFree(xs[1..]);
    }
  }

  /** Fields without the separator are the only ones, among lists of their length, with their joined text. */
  lemma {:induction false} JoinBindsFields(xs: seq<string>, ys: seq<string>)
    requires |xs| == |ys| && SeparatorFree(xs)
    requires Join(xs) == Join(ys)
    ensures xs == ys
  {
    if |xs| > 1 {
      BarsOfJoin(xs);
      BarsOfJoin(ys);
      FreeIffNoBars(xs);
      FreeIffNoBars(ys);
      hide Bars, BarsIn;
      FirstFieldBound(xs[0], Join(xs[1..]), ys[0], Join(ys[1..]));
      JoinBindsFields(xs[1..], ys[1..]);
      assert xs == [xs[0]] + xs[1..] && ys == [ys[0]] + ys[1..];
    }
  }

  lemma JoinCons(x: string, rest: seq<string>)
    requires rest != []
    ensures Join([x] + rest) == x + "|" + Join(rest)
  {
    assert ([x] + rest)[1..] == rest;
  }

  /** Where a text stands in the list does not matter to what its part of the join is. */
  lemma {:induction false} JoinInside(before: seq<string>, xs: seq<string>, ys: seq<string>, after: seq<string>)
    requires xs != [] && ys != [] && Join(xs) == Join(ys)
    ensures Join(before + xs + after) == Join(before + ys + after)
    decreases |before| + |after|
  {
    if before != [] {
      var rest := before[1..];
      JoinInside(rest, xs, ys, after);
      JoinCons(before[0], rest + xs + after);
      JoinCons(before[0], rest + ys + after);
      assert before + xs + after == [before[0]] + (rest + xs + after);
      assert before + ys + after == [before[0]] + (rest + ys + after);
    } else {
      JoinAppend(xs, after);
      JoinAppend(ys, after);
      assert before + xs == xs && before + ys == ys;
    }
  }

  lemma {:induction false} JoinAppend(xs: seq<string>, after: seq<string>)
    requires xs != []
    ensures Join(xs + after) == if after == [] then Join(xs) else Join(xs) + "|" + Join(after)
  {
    if after == [] {
      assert xs + after == xs;
    } else if |xs| == 1 {
      JoinCons(xs[0], after);
      assert xs == [xs[0]];
    } else {
      JoinAppend(xs[1..], after);
      JoinCons(xs[0], xs[1..] + after);
      assert xs + after == [xs[0]] + (xs[1..] + after);
      assert xs[0] + "|" + (Join(xs[1..]) + "|" + Join(after)) == (xs[0] + "|" + Join(xs[1..])) + "|" + Join(after);
    }
  }

  lemma JoinTwo(x: string, y: string)
    ensures Join([x, y]) == x + "|" + y
  {
    assert [x, y][1..] == [y];
  }

  /** A bar inside a field may just as well be the border to its neighbour. */
  lemma MovedBorder(xs: seq<string>, i: nat) returns (ys: seq<string>)
    requires |xs| >= 2 && i < |xs| && '|' in xs[i]
    ensures |ys| == |xs| && ys != xs && Join(ys) == Join(xs)
  {
    var k :| 0 <= k < |xs[i]| && xs[i][k] == '|';
    var u, v := xs[i][..k], xs[i][k + 1..];
    assert xs[i] == u + "|" + v;
    if i + 1 < |xs| {
      JoinTwo(xs[i], xs[i + 1]);
      JoinTwo(u, v + "|" + xs[i + 1]);
      assert u + "|" + v + "|" + xs[i + 1] == u + "|" + (v + "|" + xs[i + 1]);
      ys := WithPair(xs, i, u, v + "|" + xs[i + 1]);
    } else {
      JoinTwo(xs[i - 1], xs[i]);
      JoinTwo(xs[i - 1] + "|" + u, v);
      assert xs[i - 1] + "|" + (u + "|" + v) == xs[i - 1] + "|" + u + "|" + v;
      ys := WithPair(xs, i - 1, xs[i - 1] + "|" + u, v);
    }
  }

  /** Two neighbours replaced by two others with the same joined text. */
  lemma WithPair(xs: seq<string>, at: nat, x: string, y: string) returns (ys: seq<string>)
    requires at + 1 < |xs| && x != xs[at] && Join([x, y]) == Join([xs[at], xs[at + 1]])
    ensures |ys| == |xs| && ys != xs && Join(ys) == Join(xs)
  {
    hide Join;
    ys := xs[..at] + [x, y] + xs[at + 2..];
    assert xs == xs[..at] + [xs[at], xs[at + 1]] + xs[at + 2..];
    JoinInside(xs[..at], [xs[at], xs[at + 1]], [x, y], xs[at + 2..]);
    assert ys[at] == x;
  }

  /** A list of fields shares its joined text with another of its length exactly when a field holds the separator. */
  lemma JoinAmbiguousIff(xs: seq<string>)
    requires |xs| >= 2
    ensures (exists ys: seq<string> :: |ys| == |xs| && ys != xs && Join(ys) == Join(xs)) <==> !SeparatorFree(xs)
  {
    if SeparatorFree(xs) {
      forall ys: seq<string> | |ys| == |xs| && Join(ys) == Join(xs)
        ensures ys == xs
      {
        JoinBindsFields(xs, ys);
      }
    } else {
      var i :| 0 <= i < |xs| && '|' in xs[i];
      var ys := MovedBorder(xs, i);
    }
  }

  /** The texts of an entry other than its time; a missing one is empty. */
  function Texts(e: AuditEntry): seq<string> {
    [e.actor, e.action, OrEmpty(e.subject), OrEmpty(e.purpose), OrEmpty(e.valueHash)]
  }

  function WithTexts(e: AuditEntry, ts: seq<string>): (f: AuditEntry)
    requires |ts| == 5
    ensures Texts(f) == ts && f.at == e.at
  {
    e.(actor := ts[0], action := ts[1], subject := Some(ts[2]), purpose := Some(ts[3]), valueHash := Some(ts[4]))
  }

  lemma MaterialOfTexts(c: Crypto, prev: Option<string>, e: AuditEntry)
    ensures Material(c, prev, e) == OrEmpty(prev) + "|" + (Join(Texts(e)) + "|" + c.isoFormat(e.at))
  {
    JoinCons(OrEmpty(prev), Fields(c, e));
    assert Fields(c, e) == Texts(e) + [c.isoFormat(e.at)];
    JoinAppend(Texts(e), [c.isoFormat(e.at)]);
  }

  /** Two entries of one time share a hashed text exactly when their texts share a joined text. */
  lemma SameMaterialIffSameJoin(c: Crypto, prev: Option<string>, e: AuditEntry, f: AuditEntry)
    requires f.at == e.at
    ensures Material(c, prev, f) == Material(c, prev, e) <==> Join(Texts(f)) == Join(Texts(e))
  {
    hide Join, Material;
    MaterialOfTexts(c, prev, e);
    MaterialOfTexts(c, prev, f);
    var p, t := OrEmpty(prev) + "|", "|" + c.isoFormat(e.at);
    CancelEnds(p, Join(Texts(e)), Join(Texts(f)), t);
    assert p + Join(Texts(e)) + t == OrEmpty(prev) + "|" + (Join(Texts(e)) + "|" + c.isoFormat(e.at));
    assert p + Join(Texts(f)) + t == OrEmpty(prev) + "|" + (Join(Texts(f)) + "|" + c.isoFormat(e.at));
  }

  lemma CancelEnds(p: string, x: string, y: string, t: string)
    ensures p + x + t == p + y + t <==> x == y
  {
    if p + x + t == p + y + t {
      assert |x| == |y|;
      assert x == (p + x + t)[|p|..|p| + |x|] && y == (p + y + t)[|p|..|p| + |y|];
    }
  }

  /** Another entry of the same time has the same hashed text exactly when one of the texts holds the separator. */
  lemma SeparatorInFieldIsAmbiguous(c: Crypto, e: AuditEntry, prev: Option<string>)
    ensures (exists f: AuditEntry :: f.at == e.at && Texts(f) != Texts(e) && Material(c, prev, f) == Material(c, prev, e))
            <==> !SeparatorFree(Texts(e))
  {
    hide Join, Material, SeparatorFree;
    JoinAmbiguousIff(Texts(e));
    if f: AuditEntry :| f.at == e.at && Texts(f) != Texts(e) && Material(c, prev, f) == Material(c, prev, e) {
      SameMaterialIffSameJoin(c, prev, e, f);
    }
    if ys: seq<string> :| |ys| == |Texts(e)| && ys != Texts(e) && Join(ys) == Join(Texts(e)) {
      var f := WithTexts(e, ys);
      SameMaterialIffSameJoin(c, prev, e, f);
    }
  }

  /** A material names its predecessor's digest: equal materials, equal predecessors. */
  lemma MaterialBindsPredecessor(c: Crypto, p: Option<string>, e: AuditEntry, q: Option<string>, f: AuditEntry)
    requires p.Some? ==> IsDigest(p.value)
    requires q.Some? ==> IsDigest(q.value)
    requires Material(c, p, e) == Material(c, q, f)
    ensures p == q && Join(Fields(c, e)) == Join(Fields(c, f))
  {
    var xs, ys := [OrEmpty(p)] + Fields(c, e), [OrEmpty(q)] + Fields(c, f);
    assert xs[1..] == Fields(c, e) && ys[1..] == Fields(c, f);
    FirstFieldBound(OrEmpty(p), Join(xs[1..]), OrEmpty(q), Join(ys[1..]));
  }

  lemma HashesAreDigests(c: Crypto, es: seq<AuditEntry>, i: nat)
    requires WellFormed(c) && Chained(c, es) && i <= |es|
    ensures HeadBefore(es, i).Some? ==> IsDigest(HeadBefore(es, i).value)
  {
    if i > 0 {
      assert LinkOk(c, es, i - 1);
    }
  }

  /** One step back along two chains: equal heads come from equal materials. */
  lemma StepBack(c: Crypto, xs: seq<AuditEntry>, i: nat, ys: seq<AuditEntry>, j: nat)
    requires WellFormed(c) && Chained(c, xs) && Chained(c, ys)
    requires i < |xs| && j < |ys| && xs[i].hash == ys[j].hash
    requires !Collision(c, HashedByChain(c, xs), HashedByChain(c, ys))
    ensures Materials(c, xs)[i] == Materials(c, ys)[j]
    ensures HeadBefore(xs, i) == HeadBefore(ys, j)
  {
    assert LinkOk(c, xs, i) && LinkOk(c, ys, j);
    var mx, my := Materials(c, xs)[i], Materials(c, ys)[j];
    assert mx in HashedByChain(c, xs) && my in HashedByChain(c, ys);
    assert c.digest(mx) == c.digest(my);
    HashesAreDigests(c, xs, i);
    HashesAreDigests(c, ys, j);
    MaterialBindsPredecessor(c, HeadBefore(xs, i), xs[i], HeadBefore(ys, j), ys[j]);
  }

  lemma CollisionMono(c: Crypto, xs: set<string>, ys: set<string>, xs': set<string>, ys': set<string>)
    requires xs <= xs' && ys <= ys' && Collision(c, xs, ys)
    ensures Collision(c, xs', ys')
  {
    var x, y :| x in xs && y in ys && x != y && c.digest(x) == c.digest(y);
    assert x in xs' && y in ys';
  }

  /** Backward induction to genesis: two verified chains with equal heads hashed the same history. */
  lemma {:induction false} EqualHeadsBindHistories(c: Crypto, xs: seq<AuditEntry>, ys: seq<AuditEntry>)
    requires WellFormed(c) && Chained(c, xs) && Chained(c, ys)
    requires HeadHash(xs) == HeadHash(ys)
    requires !Collision(c, HashedByChain(c, xs), HashedByChain(c, ys))
    ensures Materials(c, xs) == Materials(c, ys)
    decreases |xs|
  {
    if xs != [] {
      var m, n := |xs| - 1, |ys| - 1;
      StepBack(c, xs, m, ys, n);
      DropLast(c, xs);
      DropLast(c, ys);
      if Collision(c, HashedByChain(c, xs[..m]), HashedByChain(c, ys[..n])) {
        CollisionMono(c, HashedByChain(c, xs[..m]), HashedByChain(c, ys[..n]), HashedByChain(c, xs), HashedByChain(c, ys));
      }
      EqualHeadsBindHistories(c, xs[..m], ys[..n]);
    }
  }

  lemma DropLast(c: Crypto, es: seq<AuditEntry>)
    requires es != [] && Chained(c, es)
    ensures var n := |es| - 1;
            && Materials(c, es) == Materials(c, es[..n]) + [Materials(c, es)[n]]
            && HashedByChain(c, es[..n]) <= HashedByChain(c, es)
            && Chained(c, es[..n]) && HeadHash(es[..n]) == HeadBefore(es, n)
  {
    PrefixOfChain(c, es, |es| - 1);
    var m := Materials(c, es);
    assert m == m[..|es| - 1] + [m[|es| - 1]];
  }

  lemma PrefixOfChain(c: Crypto, es: seq<AuditEntry>, k: nat)
    requires k <= |es|
    ensures Materials(c, es[..k]) == Materials(c, es)[..k]
    ensures HashedByChain(c, es[..k]) <= HashedByChain(c, es)
    ensures Chained(c, es) ==> Chained(c, es[..k])
    ensures HeadHash(es[..k]) == HeadBefore(es, k)
  {
    forall i | 0 <= i < k
      ensures HeadBefore(es[..k], i) == HeadBefore(es, i) && (LinkOk(c, es, i) ==> LinkOk(c, es[..k], i))
    {
    }
    assert Materials(c, es[..k]) == Materials(c, es)[..k];
  }

  /** A verified chain never repeats a hash. */
  lemma {:induction false} HashesDistinct(c: Crypto, es: seq<AuditEntry>, i: nat, j: nat)
    requires WellFormed(c) && Chained(c, es) && i < j < |es|
    ensures es[i].hash != es[j].hash || Collision(c, HashedByChain(c, es), HashedByChain(c, es))
  {
    if es[i].hash == es[j].hash && !Collision(c, HashedByChain(c, es), HashedByChain(c, es)) {
      StepBack(c, es, i, es, j);
      if i > 0 {
        HashesDistinct(c, es, i - 1, j - 1);
      }
    }
  }

  // ----- append -----

  /** What the caller of `append` supplies. */
  datatype Request = Request(
    actor: string, action: string, subject: Option<string>, purpose: Option<string>, valueHash: Option<string>,
    shardId: Option<int>, shardKey: Option<string>, district: Option<string>)

  /** Explicit shard, else shard key, else `subject or actor`. */
  function ResolveShard(c: Crypto, q: Request): int {
    if q.shardId.Some? then q.shardId.value
    else if q.shardKey.Some? then ShardFor(c, q.shardKey.value)
    else ShardFor(c, if Truthy(q.subject) then q.subject.value else q.actor)
  }

  function Appended(c: Crypto, rows: seq<AuditEntry>, q: Request, now: int, id: nat): AuditEntry {
    var shard := ResolveShard(c, q);
    var prev := HeadHash(ChainOrder(rows, shard));
    var e := AuditEntry(id, shard, prev, "", q.actor, q.action, q.subject, q.purpose, q.valueHash, now, q.district);
    e.(hash := ComputeHash(c, prev, e))
  }

  /** `p` is the last row of its shard in the order of time and then id. */
  ghost predicate IsLatest(rows: seq<AuditEntry>, shard: int, p: AuditEntry) {
    && p in rows && p.shardId == shard
    && forall e :: e in rows && e.shardId == shard ==> e.at < p.at || (e.at == p.at && e.id <= p.id)
  }

  /** The row that `append` writes: what the caller gave, in the shard that was asked for, linked to the latest row there. */
  lemma AppendedIs(c: Crypto, rows: seq<AuditEntry>, q: Request, now: int, id: nat)
    requires DistinctIds(rows)
    ensures var e := Appended(c, rows, q, now, id);
            && e.id == id && e.at == now && e.actor == q.actor && e.action == q.action && e.subject == q.subject
            && e.purpose == q.purpose && e.valueHash == q.valueHash && e.district == q.district
            && e.shardId == (if q.shardId.Some? then q.shardId.value
                             else if q.shardKey.Some? then ShardFor(c, q.shardKey.value)
                             else if q.subject.Some? && q.subject.value != "" then ShardFor(c, q.subject.value)
                             else ShardFor(c, q.actor))
            && e.hash == ComputeHash(c, e.prevHash, e)
            && (e.prevHash.None? <==> forall p :: p in rows ==> p.shardId != e.shardId)
            && (e.prevHash.Some? ==> exists p :: IsLatest(rows, e.shardId, p) && e.prevHash.value == p.hash)
  {
    var e := Appended(c, rows, q, now, id);
    var es := ChainOrder(rows, e.shardId);
    ChainOrderIsTheQuery(rows, e.shardId);
    assert e.prevHash == HeadHash(es);
    hide ChainOrder, ShardFor, Join;
    if es != [] {
      var p := es[|es| - 1];
      assert p in es;
      forall f | f in rows && f.shardId == e.shardId ensures f.at < p.at || (f.at == p.at && f.id <= p.id) {
        assert f in es;
        var i :| 0 <= i < |es| && es[i] == f;
        assert i < |es| - 1 ==> Before(es[i], es[|es| - 1]);
      }
      assert IsLatest(rows, e.shardId, p);
    } else {
      forall p | p in rows ensures p.shardId != e.shardId {
        assert p !in es;
      }
    }
  }

  /** The `audit_entry` table. Rows are only ever added (0005's append-only trigger). */
  class AuditLog {
    var rows: seq<AuditEntry>

    constructor ()
      ensures rows == []
    {
      rows := [];
    }

    method Append(c: Crypto, q: Request, now: int, id: nat) returns (entry: AuditEntry)
      modifies this
      ensures entry == Appended(c, old(rows), q, now, id)
      ensures rows == old(rows) + [entry]
    {
      var shard;
      if q.shardId.Some? {
        shard := q.shardId.value;
      } else if q.shardKey.Some? {
        shard := ShardFor(c, q.shardKey.value);
      } else {
        shard := ShardFor(c, if Truthy(q.subject) then q.subject.value else q.actor);
      }
      var last := Latest(rows, shard);
      var prev := if last.Some? then Some(last.value.hash) else None;
      entry := AuditEntry(id, shard, prev, "", q.actor, q.action, q.subject, q.purpose, q.valueHash, now, q.district);
      entry := entry.(hash := ComputeHash(c, entry.prevHash, entry));
      rows := rows + [entry];
    }
  }

  /** An entry that sorts last extends its shard's chain and touches no other shard. */
  lemma AppendExtends(c: Crypto, rows: seq<AuditEntry>, q: Request, now: int, id: nat, shard: int)
    requires Chained(c, ChainOrder(rows, shard))
    requires var last := Latest(rows, ResolveShard(c, q));
             last.None? || Before(last.value, Appended(c, rows, q, now, id))
    ensures var e, es := Appended(c, rows, q, now, id), ChainOrder(rows, shard);
            && ChainOrder(rows + [e], shard) == (if shard == e.shardId then es + [e] else es)
            && Chained(c, ChainOrder(rows + [e], shard))
  {
    var e, es := Appended(c, rows, q, now, id), ChainOrder(rows, shard);
    assert (rows + [e])[..|rows|] == rows;
    if shard == e.shardId {
      assert ChainOrder(rows + [e], shard) == es + [e];
      forall i | 0 <= i < |es + [e]| ensures LinkOk(c, es + [e], i) {
        if i < |es| {
          assert LinkOk(c, es, i);
        }
      }
    }
  }

  /**
   Exactly when an append keeps its shard verifying: when the new row sorts after every
   row of the shard. A clock that steps back (or repeats, with an unlucky id) breaks the
   chain, even though the writer held the lock.
   */
  lemma AppendVerifiesIffLast(c: Crypto, rows: seq<AuditEntry>, q: Request, now: int, id: nat)
    requires WellFormed(c) && DistinctIds(rows)
    requires forall e :: e in rows ==> e.id != id
    requires Chained(c, ChainOrder(rows, ResolveShard(c, q)))
    requires var es := ChainOrder(rows, ResolveShard(c, q));
             !Collision(c, HashedByChain(c, es), HashedByChain(c, es))
    ensures var e, last := Appended(c, rows, q, now, id), Latest(rows, ResolveShard(c, q));
            Chained(c, ChainOrder(rows + [e], e.shardId)) <==> (last.None? || Before(last.value, e))
  {
    var e, last := Appended(c, rows, q, now, id), Latest(rows, ResolveShard(c, q));
    var es := ChainOrder(rows, e.shardId);
    if last.None? || Before(last.value, e) {
      AppendExtends(c, rows, q, now, id, e.shardId);
    } else {
      ChainOrderIsTheQuery(rows, e.shardId);
      forall i | 0 <= i < |es| ensures Before(es[i], e) || Before(e, es[i]) {
        assert es[i] in rows;
      }
      RankSplits(es, e);
      var k := Rank(es, e);
      assert (rows + [e])[..|rows|] == rows;
      MisplacedRowBreaksChain(c, es, e, k);
    }
  }

  /** A row that names the head of the chain but is read before it. */
  lemma MisplacedRowBreaksChain(c: Crypto, es: seq<AuditEntry>, e: AuditEntry, k: nat)
    requires WellFormed(c) && Chained(c, es) && k < |es|
    requires !Collision(c, HashedByChain(c, es), HashedByChain(c, es))
    requires e.prevHash == HeadHash(es)
    ensures !Chained(c, es[..k] + [e] + es[k..])
  {
    hide ComputeHash, HashedByChain, Collision;
    var after := es[..k] + [e] + es[k..];
    if LinkOk(c, after, k) {
      assert HeadBefore(after, k) == HeadBefore(es, k);
      HashesDistinct(c, es, k - 1, |es| - 1);
    }
  }
}
