/**
 The edit distance that decides whether a correction needs a second person
 (services/backend/src/backend/domain/correction.py:42-60), against its meaning: the least
 number of single-character edits that turn one text into the other.
 */
module EditDistance {
  import opened Wrappers

  // ----- the meaning: edit scripts -----

  datatype Edit = Keep | Substitute(c: char) | Insert(c: char) | Delete

  function Cost(script: seq<Edit>): nat {
    if script == [] then 0
    else Cost(script[..|script| - 1]) + if script[|script| - 1].Keep? then 0 else 1
  }

  /** The text a script makes of `a`, reading both from the right; `None` when it does not fit. */
  function Perform(script: seq<Edit>, a: string): Option<string>
    decreases |script|
  {
    if script == [] then (if a == "" then Some("") else None)
    else
      var rest, last := script[..|script| - 1], script[|script| - 1];
      if last.Insert? then
        var r := Perform(rest, a);
        if r.Some? then Some(r.value + [last.c]) else None
      else if a == "" then None
      else
        var r := Perform(rest, a[..|a| - 1]);
        if r.None? then None
        else match last
             case Keep => Some(r.value + [a[|a| - 1]])
             case Substitute(c) => Some(r.value + [c])
             case _ => r
  }

  predicate Turns(script: seq<Edit>, a: string, b: string) {
    Perform(script, a) == Some(b)
  }

  // ----- the recurrence -----

  function Distance(a: string, b: string): nat
    decreases |a| + |b|
  {
    if a == "" then |b|
    else if b == "" then |a|
    else
      var a', b' := a[..|a| - 1], b[..|b| - 1];
      var cost := if a[|a| - 1] == b[|b| - 1] then 0 else 1;
      Least(Least(Distance(a', b) + 1, Distance(a, b') + 1), Distance(a', b') + cost)
  }

  lemma {:induction false} NoScriptIsCheaper(script: seq<Edit>, a: string, b: string)
    requires Turns(script, a, b)
    ensures Distance(a, b) <= Cost(script)
    decreases |script|
  {
    if script != [] {
      var rest, last := script[..|script| - 1], script[|script| - 1];
      if last.Insert? {
        assert b[..|b| - 1] == Perform(rest, a).value;
        NoScriptIsCheaper(rest, a, b[..|b| - 1]);
      } else {
        var a' := a[..|a| - 1];
        if last.Delete? {
          NoScriptIsCheaper(rest, a', b);
        } else {
          assert b[..|b| - 1] == Perform(rest, a').value;
          NoScriptIsCheaper(rest, a', b[..|b| - 1]);
        }
      }
    }
  }

  lemma Snoc(script: seq<Edit>, e: Edit, a: string)
    ensures (script + [e])[..|script|] == script
    ensures Cost(script + [e]) == Cost(script) + if e.Keep? then 0 else 1
  {
    assert (script + [e])[..|script|] == script;
  }

  lemma {:induction false} BestScript(a: string, b: string) returns (script: seq<Edit>)
    ensures Turns(script, a, b) && Cost(script) == Distance(a, b)
    decreases |a| + |b|
  {
    if a == "" && b == "" {
      script := [];
    } else {
      var rest: seq<Edit>, last: Edit;
      if b != "" && Distance(a, b) == Distance(a, b[..|b| - 1]) + 1 {
        rest := BestScript(a, b[..|b| - 1]);
        last := Insert(b[|b| - 1]);
      } else if a != "" && Distance(a, b) == Distance(a[..|a| - 1], b) + 1 {
        rest := BestScript(a[..|a| - 1], b);
        last := Delete;
      } else {
        rest := BestScript(a[..|a| - 1], b[..|b| - 1]);
        last := if a[|a| - 1] == b[|b| - 1] then Keep else Substitute(b[|b| - 1]);
      }
      assert b != "" ==> b == b[..|b| - 1] + [b[|b| - 1]];
      Snoc(rest, last, a);
      script := rest + [last];
    }
  }

  /** The recurrence is the edit distance: some script costs this much and none costs less. */
  lemma DistanceIsLeastCost(a: string, b: string)
    ensures exists script :: Turns(script, a, b) && Cost(script) == Distance(a, b)
    ensures forall script :: Turns(script, a, b) ==> Distance(a, b) <= Cost(script)
  {
    var best := BestScript(a, b);
    forall script | Turns(script, a, b) ensures Distance(a, b) <= Cost(script) {
      NoScriptIsCheaper(script, a, b);
    }
  }

  // ----- the two-row computation -----

  /** The row of distances from one prefix to every prefix of `b`. */
  ghost predicate IsRow(row: seq<nat>, a: string, b: string) {
    |row| == |b| + 1 && forall j :: 0 <= j <= |b| ==> row[j] == Distance(a, b[..j])
  }

  lemma DistanceToEmpty(a: string)
    ensures Distance(a, "") == |a|
  {
  }

  lemma DistanceOfLast(a: string, b: string)
    requires a != "" && b != ""
    ensures var a', b' := a[..|a| - 1], b[..|b| - 1];
            Distance(a, b) ==
            Least(Least(Distance(a', b) + 1, Distance(a, b') + 1),
                  Distance(a', b') + if a[|a| - 1] == b[|b| - 1] then 0 else 1)
  {
  }

  lemma DistanceAt(a: string, b: string, i: nat, j: nat)
    requires i < |a| && j < |b|
    ensures Distance(a[..i + 1], b[..j + 1]) ==
            Least(Least(Distance(a[..i], b[..j + 1]) + 1, Distance(a[..i + 1], b[..j]) + 1),
                  Distance(a[..i], b[..j]) + if a[i] == b[j] then 0 else 1)
  {
    hide Distance, Least;
    var a', b' := a[..i + 1], b[..j + 1];
    DistanceOfLast(a', b');
    assert a'[..i] == a[..i] && b'[..j] == b[..j];
  }

  /** The inner loop: the row of the next prefix from the row of the previous one. */
  method NextRow(a: string, b: string, i: nat, prev: seq<nat>) returns (curr: seq<nat>)
    requires i < |a| && IsRow(prev, a[..i], b)
    ensures IsRow(curr, a[..i + 1], b)
  {
    hide Distance;
    curr := [i + 1] + seq(|b|, _ => 0);
    DistanceToEmpty(a[..i + 1]);
    assert b[..0] == "";
    for j := 1 to |b| + 1
      invariant |curr| == |b| + 1
      invariant forall k :: 0 <= k < j ==> curr[k] == Distance(a[..i + 1], b[..k])
    {
      var cost := if a[i] == b[j - 1] then 0 else 1;
      DistanceAt(a, b, i, j - 1);
      curr := curr[j := Least(Least(prev[j] + 1, curr[j - 1] + 1), prev[j - 1] + cost)];
    }
  }

  /** `edit_distance`. */
  method Compute(first: Option<string>, second: Option<string>) returns (d: nat)
    ensures d == Distance(OrEmpty(first), OrEmpty(second))
  {
    var a, b := OrEmpty(first), OrEmpty(second);
    if a == b {
      DistanceZeroIffEqual(a, b);
      return 0;
    }
    if a == "" {
      return |b|;
    }
    if b == "" {
      return |a|;
    }
    var prev: seq<nat> := seq(|b| + 1, k requires 0 <= k => k);
    for i := 0 to |a|
      invariant IsRow(prev, a[..i], b)
    {
      prev := NextRow(a, b, i, prev);
    }
    assert a[..|a|] == a && b[..|b|] == b;
    d := prev[|b|];
  }

  // ----- it is a metric -----

  lemma {:induction false} KeepAll(a: string) returns (script: seq<Edit>)
    ensures Turns(script, a, a) && Cost(script) == 0
  {
    script := [];
    if a != "" {
      var rest := KeepAll(a[..|a| - 1]);
      assert a == a[..|a| - 1] + [a[|a| - 1]];
      Snoc(rest, Keep, a);
      script := rest + [Keep];
    }
  }

  lemma {:induction false} FreeScriptKeeps(script: seq<Edit>, a: string, b: string)
    requires Turns(script, a, b) && Cost(script) == 0
    ensures a == b
    decreases |script|
  {
    if script != [] {
      FreeScriptKeeps(script[..|script| - 1], a[..|a| - 1], b[..|b| - 1]);
      assert a == a[..|a| - 1] + [a[|a| - 1]] && b == b[..|b| - 1] + [b[|b| - 1]];
    }
  }

  lemma DistanceZeroIffEqual(a: string, b: string)
    ensures Distance(a, b) == 0 <==> a == b
  {
    if a == b {
      var script := KeepAll(a);
      NoScriptIsCheaper(script, a, b);
    }
    if Distance(a, b) == 0 {
      var script := BestScript(a, b);
      FreeScriptKeeps(script, a, b);
    }
  }

  lemma {:induction false} DistanceSymmetric(a: string, b: string)
    ensures Distance(a, b) == Distance(b, a)
    decreases |a| + |b|
  {
    if a != "" && b != "" {
      DistanceSymmetric(a[..|a| - 1], b);
      DistanceSymmetric(a, b[..|b| - 1]);
      DistanceSymmetric(a[..|a| - 1], b[..|b| - 1]);
    }
  }

  /** Two scripts, one after the other, are one script that costs no more. */
  lemma {:induction false} Compose(s: seq<Edit>, t: seq<Edit>, a: string, b: string, c: string) returns (r: seq<Edit>)
    requires Turns(s, a, b) && Turns(t, b, c)
    ensures Turns(r, a, c) && Cost(r) <= Cost(s) + Cost(t)
    decreases |s| + |t|
  {
    if s == [] && t == [] {
      r := [];
    } else if t != [] && t[|t| - 1].Insert? {
      var rest := Compose(s, t[..|t| - 1], a, b, c[..|c| - 1]);
      Snoc(rest, t[|t| - 1], a);
      r := rest + [t[|t| - 1]];
    } else if s != [] && s[|s| - 1].Delete? {
      var rest := Compose(s[..|s| - 1], t, a[..|a| - 1], b, c);
      Snoc(rest, Delete, a);
      r := rest + [Delete];
    } else {
      r := ComposeCharacter(s, t, a, b, c);
    }
  }

  /** The case where the first script makes the character that the second one consumes. */
  lemma {:induction false} ComposeCharacter(s: seq<Edit>, t: seq<Edit>, a: string, b: string, c: string) returns (r: seq<Edit>)
    requires Turns(s, a, b) && Turns(t, b, c)
    requires s != [] || t != []
    requires s != [] ==> !s[|s| - 1].Delete?
    requires t != [] ==> !t[|t| - 1].Insert?
    ensures Turns(r, a, c) && Cost(r) <= Cost(s) + Cost(t)
    decreases |s| + |t|, 0
  {
    var s', x := s[..|s| - 1], s[|s| - 1];
    var t', y := t[..|t| - 1], t[|t| - 1];
    var a' := if x.Insert? then a else a[..|a| - 1];
    var c' := if y.Delete? then c else c[..|c| - 1];
    var rest := Compose(s', t', a', b[..|b| - 1], c');
    var last := if y.Keep? then x else if x.Insert? && y.Substitute? then Insert(y.c) else y;
    if x.Insert? && y.Delete? {
      r := rest;
    } else {
      Snoc(rest, last, a);
      r := rest + [last];
    }
  }

  lemma DistanceTriangle(a: string, b: string, c: string)
    ensures Distance(a, c) <= Distance(a, b) + Distance(b, c)
  {
    var s := BestScript(a, b);
    var t := BestScript(b, c);
    var r := Compose(s, t, a, b, c);
    NoScriptIsCheaper(r, a, c);
  }

  lemma {:induction false} DistanceBounds(a: string, b: string)
    ensures Distance(a, b) >= if |a| <= |b| then |b| - |a| else |a| - |b|
    ensures Distance(a, b) <= if |a| <= |b| then |b| else |a|
    decreases |a| + |b|
  {
    if a != "" && b != "" {
      DistanceBounds(a[..|a| - 1], b);
      DistanceBounds(a, b[..|b| - 1]);
      DistanceBounds(a[..|a| - 1], b[..|b| - 1]);
    }
  }
}
