/** The walk that finds which blocks under a root are missing from a block store. */
module MissingBlocks {
  import opened Primitives

  /** A stored block: its references in the order in which they are pushed, or that it cannot be read or decoded. */
  datatype Block = Block(refs: seq<Cid>) | Unreadable

  type Store = map<Cid, Block>

  /** A block's CID is a hash of its content, so references cannot form a cycle: ranks exist. */
  predicate Ranked(store: Store, rank: map<Cid, nat>) {
    && store.Keys <= rank.Keys
    && forall c, r :: c in store && store[c].Block? && r in store[c].refs && r in store ==> rank[r] < rank[c]
  }

  // ---------- Paths ----------

  /** Steps are positions in the reference lists of stored blocks, followed from a root. */
  predicate IsPath(store: Store, root: Cid, steps: seq<nat>)
    decreases |steps|
  {
    steps != [] ==>
      && root in store && store[root].Block? && steps[0] < |store[root].refs|
      && IsPath(store, store[root].refs[steps[0]], steps[1..])
  }

  function End(store: Store, root: Cid, steps: seq<nat>): Cid
    requires IsPath(store, root, steps)
    decreases |steps|
  {
    if steps == [] then root else End(store, store[root].refs[steps[0]], steps[1..])
  }

  predicate Leads(store: Store, root: Cid, steps: seq<nat>, end: Cid) {
    IsPath(store, root, steps) && End(store, root, steps) == end
  }

  predicate IsMissingPath(store: Store, root: Cid, steps: seq<nat>) {
    IsPath(store, root, steps) && End(store, root, steps) !in store
  }

  /** An unreadable block can be reached. */
  ghost predicate Broken(store: Store, root: Cid) {
    exists steps :: BreaksAt(store, root, steps)
  }

  predicate BreaksAt(store: Store, root: Cid, steps: seq<nat>) {
    IsPath(store, root, steps) && var c := End(store, root, steps); c in store && store[c].Unreadable?
  }

  // ---------- The walk as a function ----------

  function Height(store: Store, rank: map<Cid, nat>, c: Cid): nat
    requires Ranked(store, rank)
  {
    if c in store then rank[c] + 1 else 0
  }

  ghost function MaxHeight(store: Store, rank: map<Cid, nat>, cs: seq<Cid>): (m: nat)
    requires Ranked(store, rank)
    ensures forall c :: c in cs ==> Height(store, rank, c) <= m
    ensures m == 0 || exists c :: c in cs && Height(store, rank, c) == m
  {
    if cs == [] then 0 else
      var before, last := MaxHeight(store, rank, cs[..|cs| - 1]), cs[|cs| - 1];
      if before <= Height(store, rank, last) then
        assert last in cs; Height(store, rank, last)
      else before
  }

  /** The missing CIDs under one, once for each way to get there, last reference first. */
  ghost function Walk(store: Store, rank: map<Cid, nat>, c: Cid): seq<Cid>
    requires Ranked(store, rank)
    decreases Height(store, rank, c), 0, 0
  {
    if c !in store then [c]
    else if store[c].Unreadable? then []
    else WalkAll(store, rank, store[c].refs)
  }

  ghost function WalkAll(store: Store, rank: map<Cid, nat>, cs: seq<Cid>): seq<Cid>
    requires Ranked(store, rank)
    decreases MaxHeight(store, rank, cs), 1, |cs|
  {
    if cs == [] then [] else
      Walk(store, rank, cs[|cs| - 1]) + WalkAll(store, rank, cs[..|cs| - 1])
  }

  /** The size of the tree that the store unfolds to. */
  ghost function Size(store: Store, rank: map<Cid, nat>, c: Cid): nat
    requires Ranked(store, rank)
    decreases Height(store, rank, c), 0, 0
  {
    if c in store && store[c].Block? then 1 + SizeAll(store, rank, store[c].refs) else 1
  }

  ghost function SizeAll(store: Store, rank: map<Cid, nat>, cs: seq<Cid>): nat
    requires Ranked(store, rank)
    decreases MaxHeight(store, rank, cs), 1, |cs|
  {
    if cs == [] then 0 else
      Size(store, rank, cs[|cs| - 1]) + SizeAll(store, rank, cs[..|cs| - 1])
  }

  lemma {:induction false} WalkAllAppend(store: Store, rank: map<Cid, nat>, xs: seq<Cid>, ys: seq<Cid>)
    requires Ranked(store, rank)
    ensures WalkAll(store, rank, xs + ys) == WalkAll(store, rank, ys) + WalkAll(store, rank, xs)
    ensures SizeAll(store, rank, xs + ys) == SizeAll(store, rank, ys) + SizeAll(store, rank, xs)
    decreases |ys|
  {
    if ys == [] {
      assert xs + ys == xs;
    } else {
      var init := ys[..|ys| - 1];
      assert (xs + ys)[..|xs + ys| - 1] == xs + init;
      WalkAllAppend(store, rank, xs, init);
    }
  }

  // ---------- The code ----------

  ghost predicate AnyBroken(store: Store, cs: seq<Cid>) {
    exists c :: c in cs && Broken(store, c)
  }

  /** A block breaks the walk if it is unreadable, or one of its references does. */
  lemma BrokenIff(store: Store, c: Cid)
    ensures Broken(store, c) <==> c in store && (store[c].Unreadable? || AnyBroken(store, store[c].refs))
  {
    if Broken(store, c) {
      var steps :| BreaksAt(store, c, steps);
      if steps != [] {
        var r := store[c].refs[steps[0]];
        assert BreaksAt(store, r, steps[1..]);
        assert r in store[c].refs && Broken(store, r);
      }
    }
    if c in store && store[c].Unreadable? {
      assert BreaksAt(store, c, []);
    } else if c in store && AnyBroken(store, store[c].refs) {
      var r :| r in store[c].refs && Broken(store, r);
      var k: nat :| k < |store[c].refs| && store[c].refs[k] == r;
      var steps :| BreaksAt(store, r, steps);
      assert ([k] + steps)[1..] == steps;
      assert BreaksAt(store, c, [k] + steps);
    }
  }

  lemma AnyBrokenAppend(store: Store, xs: seq<Cid>, ys: seq<Cid>)
    ensures AnyBroken(store, xs + ys) <==> AnyBroken(store, xs) || AnyBroken(store, ys)
  {
  }

  /** What is left to do after the last CID on the stack is replaced by its references, or dropped. */
  lemma Popped(store: Store, rank: map<Cid, nat>, stack: seq<Cid>)
    requires Ranked(store, rank) && stack != []
    ensures var c, rest := stack[|stack| - 1], stack[..|stack| - 1];
      && (AnyBroken(store, stack) <==> Broken(store, c) || AnyBroken(store, rest))
      && WalkAll(store, rank, stack) == Walk(store, rank, c) + WalkAll(store, rank, rest)
      && SizeAll(store, rank, rest) < SizeAll(store, rank, stack)
      && (c in store && store[c].Block? ==>
            && (AnyBroken(store, stack) <==> AnyBroken(store, rest + store[c].refs))
            && WalkAll(store, rank, stack) == WalkAll(store, rank, rest + store[c].refs)
            && SizeAll(store, rank, rest + store[c].refs) < SizeAll(store, rank, stack))
  {
    var c, rest := stack[|stack| - 1], stack[..|stack| - 1];
    BrokenIff(store, c);
    assert stack == rest + [c];
    AnyBrokenAppend(store, rest, [c]);
    assert AnyBroken(store, [c]) <==> Broken(store, c) by {
      assert c in [c];
    }
    if c in store && store[c].Block? {
      WalkAllAppend(store, rank, rest, store[c].refs);
      AnyBrokenAppend(store, rest, store[c].refs);
    }
  }

  /**
   The loop over a stack. It fails exactly when an unreadable block can be reached, and otherwise
   returns what the recursive walk does.
   */
  method FindMissing(store: Store, root: Cid, ghost rank: map<Cid, nat>) returns (result: Option<seq<Cid>>)
    requires Ranked(store, rank)
    ensures result.None? <==> Broken(store, root)
    ensures result.Some? ==> result.value == Walk(store, rank, root)
  {
    var stack := [root];
    var missing := [];
    assert WalkAll(store, rank, []) == [];
    assert WalkAll(store, rank, stack) == Walk(store, rank, root) + [];
    while stack != []
      invariant missing + WalkAll(store, rank, stack) == Walk(store, rank, root)
      invariant Broken(store, root) <==> AnyBroken(store, stack)
      decreases SizeAll(store, rank, stack)
    {
      Popped(store, rank, stack);
      var cid, rest := stack[|stack| - 1], stack[..|stack| - 1];
      if cid in store {
        if store[cid].Unreadable? {
          BrokenIff(store, cid);
          return None;
        }
        stack := rest + store[cid].refs;
      } else {
        BrokenIff(store, cid);
        stack := rest;
        missing := missing + [cid];
      }
    }
    return Some(missing);
  }

  // ---------- What the result means ----------

  /** All the paths to missing CIDs, in the order of the walk. */
  ghost function Paths(store: Store, rank: map<Cid, nat>, c: Cid): seq<seq<nat>>
    requires Ranked(store, rank)
    decreases Height(store, rank, c), 0, 0
  {
    if c !in store then [[]]
    else if store[c].Unreadable? then []
    else PathsVia(store, rank, store[c].refs)
  }

  ghost function PathsVia(store: Store, rank: map<Cid, nat>, cs: seq<Cid>): seq<seq<nat>>
    requires Ranked(store, rank)
    decreases MaxHeight(store, rank, cs), 1, |cs|
  {
    if cs == [] then [] else
      Prepend(|cs| - 1, Paths(store, rank, cs[|cs| - 1])) + PathsVia(store, rank, cs[..|cs| - 1])
  }

  ghost function Prepend(k: nat, paths: seq<seq<nat>>): (r: seq<seq<nat>>)
    ensures |r| == |paths| && forall i :: 0 <= i < |r| ==> r[i] == [k] + paths[i]
  {
    seq(|paths|, i requires 0 <= i < |paths| => [k] + paths[i])
  }

  /** A missing path that starts with a reference in a list. */
  predicate IsMissingVia(store: Store, cs: seq<Cid>, steps: seq<nat>) {
    steps != [] && steps[0] < |cs| && IsMissingPath(store, cs[steps[0]], steps[1..])
  }

  predicate LeadsVia(store: Store, cs: seq<Cid>, steps: seq<nat>, end: Cid) {
    steps != [] && steps[0] < |cs| && Leads(store, cs[steps[0]], steps[1..], end)
  }

  /** `paths` lists each path that `cids` has an entry for, without repetition. */
  ghost predicate Lists(store: Store, c: Cid, paths: seq<seq<nat>>, cids: seq<Cid>) {
    && |paths| == |cids| && NoDuplicates(paths)
    && (forall steps :: steps in paths <==> IsMissingPath(store, c, steps))
    && forall i :: 0 <= i < |paths| ==> Leads(store, c, paths[i], cids[i])
  }

  ghost predicate ListsVia(store: Store, cs: seq<Cid>, paths: seq<seq<nat>>, cids: seq<Cid>) {
    && |paths| == |cids| && NoDuplicates(paths)
    && (forall steps :: steps in paths <==> IsMissingVia(store, cs, steps))
    && forall i :: 0 <= i < |paths| ==> LeadsVia(store, cs, paths[i], cids[i])
  }

  /** The walk has one entry for each path from the root through stored blocks to an absent CID. */
  lemma {:induction false} OneEntryPerPath(store: Store, rank: map<Cid, nat>, c: Cid)
    requires Ranked(store, rank)
    ensures Lists(store, c, Paths(store, rank, c), Walk(store, rank, c))
    decreases Height(store, rank, c), 0, 0
  {
    if c in store && store[c].Block? {
      OneEntryPerPathVia(store, rank, store[c].refs);
      ListsFromRefs(store, c, Paths(store, rank, c), Walk(store, rank, c));
    } else {
      forall steps
        ensures steps in Paths(store, rank, c) <==> IsMissingPath(store, c, steps)
      {
      }
    }
  }

  lemma ListsFromRefs(store: Store, c: Cid, paths: seq<seq<nat>>, cids: seq<Cid>)
    requires c in store && store[c].Block? && ListsVia(store, store[c].refs, paths, cids)
    ensures Lists(store, c, paths, cids)
  {
  }

  lemma {:induction false} OneEntryPerPathVia(store: Store, rank: map<Cid, nat>, cs: seq<Cid>)
    requires Ranked(store, rank)
    ensures ListsVia(store, cs, PathsVia(store, rank, cs), WalkAll(store, rank, cs))
    decreases MaxHeight(store, rank, cs), 1, |cs|
  {
    if cs != [] {
      var n := |cs| - 1;
      OneEntryPerPath(store, rank, cs[n]);
      OneEntryPerPathVia(store, rank, cs[..n]);
      ListsMore(store, cs, Paths(store, rank, cs[n]), Walk(store, rank, cs[n]),
                PathsVia(store, rank, cs[..n]), WalkAll(store, rank, cs[..n]));
    }
  }

  lemma ListsMore(store: Store, cs: seq<Cid>, last: seq<seq<nat>>, lastCids: seq<Cid>,
                  init: seq<seq<nat>>, initCids: seq<Cid>)
    requires cs != []
    requires Lists(store, cs[|cs| - 1], last, lastCids) && ListsVia(store, cs[..|cs| - 1], init, initCids)
    ensures ListsVia(store, cs, Prepend(|cs| - 1, last) + init, lastCids + initCids)
  {
    var n := |cs| - 1;
    var paths := Prepend(n, last) + init;
    forall steps
      ensures steps in Prepend(n, last) <==> steps != [] && steps[0] == n && steps[1..] in last
    {
      if steps != [] && steps[0] == n && steps[1..] in last {
        var i :| 0 <= i < |last| && last[i] == steps[1..];
        assert Prepend(n, last)[i] == steps;
      }
    }
    forall steps
      ensures steps in paths <==> IsMissingVia(store, cs, steps)
    {
      assert steps in init <==> IsMissingVia(store, cs[..n], steps);
    }
    assert NoDuplicates(paths) by {
      forall i, j | 0 <= i < j < |paths|
        ensures paths[i] != paths[j]
      {
        if j < |last| {
          assert last[i] != last[j];
          assert paths[i][1..] == last[i] && paths[j][1..] == last[j];
        } else {
          assert paths[j] in init;
          assert i < |last| ==> paths[i][0] == n;
          assert |last| <= i ==> paths[i] == init[i - |last|];
        }
      }
    }
    forall i | 0 <= i < |paths|
      ensures LeadsVia(store, cs, paths[i], (lastCids + initCids)[i])
    {
      if i < |last| {
        assert paths[i][1..] == last[i] && Leads(store, cs[n], last[i], lastCids[i]);
      } else {
        assert paths[i] == init[i - |last|] && LeadsVia(store, cs[..n], paths[i], initCids[i - |last|]);
      }
    }
  }

  /** Nothing is reported missing exactly when everything under the root is stored. */
  lemma NothingMissingIff(store: Store, rank: map<Cid, nat>, root: Cid)
    requires Ranked(store, rank)
    ensures Walk(store, rank, root) == [] <==> forall steps, end :: Leads(store, root, steps, end) ==> end in store
  {
    OneEntryPerPath(store, rank, root);
    var paths := Paths(store, rank, root);
    if Walk(store, rank, root) != [] {
      assert paths[0] in paths && Leads(store, root, paths[0], Walk(store, rank, root)[0]);
    } else {
      forall steps, end | Leads(store, root, steps, end)
        ensures end in store
      {
        assert steps !in paths;
      }
    }
  }

  // ---------- When the walk ends ----------

  datatype Outcome = Running | Done | Failed

  /** Where the loop stands after `n` pops: it is done when the stack is empty, and fails at an unreadable block. */
  function Loop(store: Store, stack: seq<Cid>, n: nat): Outcome
    decreases n
  {
    if stack == [] then Done
    else if n == 0 then Running
    else
      var c, rest := stack[|stack| - 1], stack[..|stack| - 1];
      if c !in store then Loop(store, rest, n - 1)
      else if store[c].Unreadable? then Failed
      else Loop(store, rest + store[c].refs, n - 1)
  }

  ghost predicate Ends(store: Store, root: Cid) {
    exists n: nat :: !Loop(store, [root], n).Running?
  }

  /** What lies on top of the stack is dealt with first, and a failure there is final. */
  lemma {:induction false} LoopSplits(store: Store, xs: seq<Cid>, m: nat, ys: seq<Cid>, n: nat)
    ensures Loop(store, ys, n).Failed? ==> Loop(store, xs + ys, n).Failed?
    ensures Loop(store, ys, n).Done? && !Loop(store, xs, m).Running? ==>
      Loop(store, xs + ys, n + m) == Loop(store, xs, m)
    decreases n
  {
    if ys == [] {
      assert xs + ys == xs;
      if !Loop(store, xs, m).Running? {
        LoopStays(store, xs, m, n + m);
      }
    } else if n > 0 {
      var c, rest := ys[|ys| - 1], ys[..|ys| - 1];
      assert (xs + ys)[..|xs + ys| - 1] == xs + rest;
      if c !in store {
        LoopSplits(store, xs, m, rest, n - 1);
      } else if store[c].Block? {
        LoopSplits(store, xs, m, rest + store[c].refs, n - 1);
        assert xs + (rest + store[c].refs) == xs + rest + store[c].refs;
      }
    }
  }

  lemma {:induction false} LoopStays(store: Store, stack: seq<Cid>, m: nat, n: nat)
    requires !Loop(store, stack, m).Running? && m <= n
    ensures Loop(store, stack, n) == Loop(store, stack, m)
    decreases m
  {
    if stack != [] {
      var c, rest := stack[|stack| - 1], stack[..|stack| - 1];
      if c !in store {
        LoopStays(store, rest, m - 1, n - 1);
      } else if store[c].Block? {
        LoopStays(store, rest + store[c].refs, m - 1, n - 1);
      }
    }
  }

  /** If it ends, the loop fails exactly when an unreadable block can be reached from the stack. */
  lemma {:induction false} FailsIffBroken(store: Store, stack: seq<Cid>, n: nat)
    ensures Loop(store, stack, n).Done? ==> !AnyBroken(store, stack)
    ensures Loop(store, stack, n).Failed? ==> AnyBroken(store, stack)
    decreases n
  {
    if stack != [] && n > 0 {
      var c, rest := stack[|stack| - 1], stack[..|stack| - 1];
      BrokenIff(store, c);
      assert stack == rest + [c];
      AnyBrokenAppend(store, rest, [c]);
      assert AnyBroken(store, [c]) <==> Broken(store, c) by {
        assert c in [c];
      }
      if c !in store {
        FailsIffBroken(store, rest, n - 1);
      } else if store[c].Block? {
        FailsIffBroken(store, rest + store[c].refs, n - 1);
        AnyBrokenAppend(store, rest, store[c].refs);
      }
    }
  }

  // ---------- Circular references ----------

  /** The path `loop` leads from the end of the path `pre` back to where it started. */
  predicate Circles(store: Store, root: Cid, pre: seq<nat>, loop: seq<nat>) {
    && IsPath(store, root, pre) && loop != []
    && var c := End(store, root, pre); Leads(store, c, loop, c)
  }

  ghost predicate Circular(store: Store, root: Cid) {
    exists pre, loop :: Circles(store, root, pre, loop)
  }

  lemma {:induction false} LeadsOn(store: Store, root: Cid, a: seq<nat>, mid: Cid, b: seq<nat>)
    requires Leads(store, root, a, mid)
    ensures IsPath(store, root, a + b) <==> IsPath(store, mid, b)
    ensures IsPath(store, mid, b) ==> End(store, root, a + b) == End(store, mid, b)
    decreases |a|
  {
    if a == [] {
      assert a + b == b;
    } else {
      LeadsOn(store, store[root].refs[a[0]], a[1..], mid, b);
      assert (a + b)[1..] == a[1..] + b;
    }
  }

  /** The path goes through a CID before its end. */
  ghost predicate Passes(store: Store, root: Cid, path: seq<nat>, x: Cid) {
    exists j: nat :: j < |path| && Leads(store, root, path[..j], x)
  }

  /** A path that comes back to a CID it has passed runs in a circle. */
  lemma PassedTwice(store: Store, root: Cid, path: seq<nat>, c: Cid) returns (pre: seq<nat>, loop: seq<nat>)
    requires Leads(store, root, path, c) && Passes(store, root, path, c)
    ensures path == pre + loop && Circles(store, root, pre, loop)
  {
    var j: nat :| j < |path| && Leads(store, root, path[..j], c);
    pre, loop := path[..j], path[j..];
    assert path == pre + loop;
    LeadsOn(store, root, pre, c, loop);
  }

  lemma PassesMore(store: Store, root: Cid, path: seq<nat>, k: nat, x: Cid)
    ensures Passes(store, root, path, x) ==> Passes(store, root, path + [k], x)
    ensures Leads(store, root, path, x) ==> Passes(store, root, path + [k], x)
  {
    var longer := path + [k];
    if Passes(store, root, path, x) {
      var j: nat :| j < |path| && Leads(store, root, path[..j], x);
      assert longer[..j] == path[..j];
    }
    assert longer[..|path|] == path;
  }

  /** Pigeonhole: without circles, a path takes no more steps than there are blocks it has not passed. */
  lemma {:induction false} PathsAreShort(
    store: Store, root: Cid, pre: seq<nat>, c: Cid, passed: set<Cid>, steps: seq<nat>)
    requires !Circular(store, root)
    requires Leads(store, root, pre, c) && IsPath(store, c, steps)
    requires forall x :: x in passed ==> Passes(store, root, pre, x)
    ensures |steps| <= |store.Keys - passed|
    decreases |steps|
  {
    if steps != [] {
      var k, r := steps[0], store[c].refs[steps[0]];
      if c in passed {
        var a, b := PassedTwice(store, root, pre, c);
        assert false;
      }
      LeadsOn(store, root, pre, c, [k]);
      forall x | x in passed + {c}
        ensures Passes(store, root, pre + [k], x)
      {
        PassesMore(store, root, pre, k, x);
      }
      PathsAreShort(store, root, pre + [k], r, passed + {c}, steps[1..]);
      assert store.Keys - passed == (store.Keys - (passed + {c})) + {c};
    }
  }

  lemma {:induction false} RoundAndRound(store: Store, c: Cid, loop: seq<nat>, n: nat) returns (steps: seq<nat>)
    requires loop != [] && Leads(store, c, loop, c)
    ensures Leads(store, c, steps, c) && |steps| >= n
  {
    steps := [];
    if n > 0 {
      steps := RoundAndRound(store, c, loop, n - 1);
      LeadsOn(store, c, steps, c, loop);
      steps := steps + loop;
    }
  }

  ghost predicate Deep(store: Store, root: Cid, n: nat) {
    exists steps :: IsPath(store, root, steps) && |steps| > n
  }

  /** References run in a circle exactly when paths are unbounded; otherwise none is longer than the store is large. */
  lemma CircularIff(store: Store, root: Cid)
    ensures Circular(store, root) <==> Deep(store, root, |store.Keys|)
    ensures Circular(store, root) <==> forall n: nat :: Deep(store, root, n)
  {
    if Circular(store, root) {
      var pre, loop :| Circles(store, root, pre, loop);
      forall n: nat
        ensures Deep(store, root, n)
      {
        CircleIsDeep(store, root, pre, loop, n);
      }
    } else {
      forall steps | IsPath(store, root, steps)
        ensures |steps| <= |store.Keys|
      {
        PathsAreShort(store, root, [], root, {}, steps);
        assert store.Keys - {} == store.Keys;
      }
    }
  }

  lemma CircleIsDeep(store: Store, root: Cid, pre: seq<nat>, loop: seq<nat>, n: nat)
    requires Circles(store, root, pre, loop)
    ensures Deep(store, root, n)
  {
    var c := End(store, root, pre);
    var steps := RoundAndRound(store, c, loop, n + 1);
    LeadsOn(store, root, pre, c, steps);
    assert IsPath(store, root, pre + steps) && |pre + steps| > n;
  }

  /** Ranks rule circles out. */
  lemma {:induction false} RankedPathDescends(store: Store, rank: map<Cid, nat>, c: Cid, steps: seq<nat>)
    requires Ranked(store, rank) && IsPath(store, c, steps) && steps != [] && End(store, c, steps) in store
    ensures rank[End(store, c, steps)] < rank[c]
    decreases |steps|
  {
    if |steps| > 1 {
      RankedPathDescends(store, rank, store[c].refs[steps[0]], steps[1..]);
    }
  }

  lemma RankedIsNotCircular(store: Store, rank: map<Cid, nat>, root: Cid)
    requires Ranked(store, rank)
    ensures !Circular(store, root)
  {
    forall pre, loop
      ensures !Circles(store, root, pre, loop)
    {
      if Circles(store, root, pre, loop) {
        RankedPathDescends(store, rank, End(store, root, pre), loop);
        assert false;
      }
    }
  }

  // ---------- The order of the walk ----------

  /** The walk takes the path `b` before it gets to follow `path` to its end: the last reference goes first. */
  predicate Before(b: seq<nat>, path: seq<nat>)
    decreases |path|
  {
    && b != [] && path != []
    && (b[0] > path[0] || (b[0] == path[0] && Before(b[1..], path[1..])))
  }

  ghost predicate FailsBefore(store: Store, root: Cid, path: seq<nat>) {
    exists b :: BreaksAt(store, root, b) && Before(b, path)
  }

  /** Some references run in a circle, and the walk meets no unreadable block on its way into it. */
  ghost predicate Endless(store: Store, root: Cid) {
    exists pre, loop :: Circles(store, root, pre, loop) && !FailsBefore(store, root, pre + loop)
  }

  lemma {:induction false} BeforeSplits(b: seq<nat>, xs: seq<nat>, ys: seq<nat>)
    requires Before(b, xs + ys)
    ensures Before(b, xs) || (xs <= b && Before(b[|xs|..], ys))
    decreases |xs|
  {
    if xs == [] {
      assert xs + ys == ys && b[0..] == b;
    } else {
      assert (xs + ys)[1..] == xs[1..] + ys;
      if b[0] == xs[0] {
        BeforeSplits(b[1..], xs[1..], ys);
        if xs[1..] <= b[1..] {
          assert xs <= b && b[1..][|xs| - 1..] == b[|xs|..];
        }
      }
    }
  }

  lemma BreaksOn(store: Store, root: Cid, a: seq<nat>, mid: Cid, b: seq<nat>)
    requires Leads(store, root, a, mid)
    ensures BreaksAt(store, root, a + b) <==> BreaksAt(store, mid, b)
  {
    LeadsOn(store, root, a, mid, b);
  }

  lemma StepLeads(store: Store, c: Cid, k: nat)
    requires c in store && store[c].Block? && k < |store[c].refs|
    ensures Leads(store, c, [k], store[c].refs[k])
  {
    assert [k][1..] == [];
  }

  /** References after the k-th break nothing, if nothing fails before a path that starts with the k-th. */
  lemma LaterRefsIntact(store: Store, c: Cid, path: seq<nat>)
    requires path != [] && IsPath(store, c, path) && !FailsBefore(store, c, path)
    ensures !AnyBroken(store, store[c].refs[path[0] + 1..])
  {
    var k, refs := path[0], store[c].refs;
    forall r | r in refs[k + 1..]
      ensures !Broken(store, r)
    {
      var m: nat :| k < m < |refs| && refs[m] == r;
      StepLeads(store, c, m);
      forall b
        ensures !BreaksAt(store, r, b)
      {
        BreaksOn(store, c, [m], r, b);
        assert Before([m] + b, path);
      }
    }
  }

  /** Nothing fails before the rest of a path either. */
  lemma RestIntact(store: Store, c: Cid, path: seq<nat>)
    requires path != [] && IsPath(store, c, path) && !FailsBefore(store, c, path)
    ensures !FailsBefore(store, store[c].refs[path[0]], path[1..])
  {
    var k, r := path[0], store[c].refs[path[0]];
    StepLeads(store, c, k);
    forall b
      ensures !(BreaksAt(store, r, b) && Before(b, path[1..]))
    {
      BreaksOn(store, c, [k], r, b);
      assert ([k] + b)[1..] == b;
    }
  }

  /** A circle through `c` can be entered one step later. */
  lemma CircleTurned(store: Store, c: Cid, loop: seq<nat>)
    requires Circles(store, c, [], loop) && !FailsBefore(store, c, loop)
    ensures var k := loop[0]; var r := store[c].refs[k];
      Circles(store, r, [], loop[1..] + [k]) && !FailsBefore(store, r, loop[1..] + [k])
  {
    var k, tail := loop[0], loop[1..];
    var r := store[c].refs[k];
    StepLeads(store, c, k);
    assert Leads(store, r, tail, c);
    LeadsOn(store, r, tail, c, [k]);
    RestIntact(store, c, loop);
    forall b
      ensures !(BreaksAt(store, r, b) && Before(b, tail + [k]))
    {
      if BreaksAt(store, r, b) && Before(b, tail + [k]) {
        BeforeSplits(b, tail, [k]);
        assert Before(b, tail) ==> FailsBefore(store, r, tail);
        var rest := b[|tail|..];
        assert b == tail + rest;
        BreaksOn(store, r, tail, c, rest);
        assert Before(rest, loop);
        assert false;
      }
    }
  }

  /** An endless walk from a CID goes on through one of its references, after all later ones were dealt with. */
  lemma EndlessGoesOn(store: Store, c: Cid) returns (k: nat)
    requires Endless(store, c)
    ensures c in store && store[c].Block? && k < |store[c].refs|
    ensures Endless(store, store[c].refs[k]) && !AnyBroken(store, store[c].refs[k + 1..])
  {
    var pre, loop :| Circles(store, c, pre, loop) && !FailsBefore(store, c, pre + loop);
    var path := pre + loop;
    LeadsOn(store, c, pre, End(store, c, pre), loop);
    k := path[0];
    LaterRefsIntact(store, c, path);
    var r := store[c].refs[k];
    if pre == [] {
      assert path == loop;
      CircleTurned(store, c, loop);
      assert [] + (loop[1..] + [k]) == loop[1..] + [k];
    } else {
      RestIntact(store, c, path);
      assert path[1..] == pre[1..] + loop;
      assert Circles(store, r, pre[1..], loop);
    }
  }

  /** The stack that the loop goes on with. */
  function Next(store: Store, stack: seq<Cid>): seq<Cid>
    requires stack != []
  {
    var c, rest := stack[|stack| - 1], stack[..|stack| - 1];
    if c in store && store[c].Block? then rest + store[c].refs else rest
  }

  /** Somewhere on the stack is the start of an endless walk, and nothing above it fails. */
  ghost predicate Stuck(store: Store, stack: seq<Cid>, i: nat) {
    i < |stack| && Endless(store, stack[i]) && !AnyBroken(store, stack[i + 1..])
  }

  lemma StuckAtTop(store: Store, stack: seq<Cid>) returns (j: nat)
    requires stack != [] && Stuck(store, stack, |stack| - 1)
    ensures var c := stack[|stack| - 1]; c in store && store[c].Block?
    ensures Stuck(store, Next(store, stack), j)
  {
    var top := |stack| - 1;
    var c, next := stack[top], Next(store, stack);
    var k := EndlessGoesOn(store, c);
    j := top + k;
    assert next[j] == store[c].refs[k] && next[j + 1..] == store[c].refs[k + 1..];
  }

  lemma StuckBelow(store: Store, stack: seq<Cid>, i: nat)
    requires Stuck(store, stack, i) && i < |stack| - 1
    ensures var c := stack[|stack| - 1]; c in store ==> store[c].Block?
    ensures Stuck(store, Next(store, stack), i)
  {
    var top := |stack| - 1;
    var c, next := stack[top], Next(store, stack);
    var above := stack[i + 1..top];
    assert stack[i + 1..] == above + [c];
    AnyBrokenAppend(store, above, [c]);
    assert c in [c];
    BrokenIff(store, c);
    if c in store {
      assert next[i + 1..] == above + store[c].refs;
      AnyBrokenAppend(store, above, store[c].refs);
    } else {
      assert next[i + 1..] == above;
    }
  }

  lemma {:induction false} EndlessKeepsRunning(store: Store, stack: seq<Cid>, i: nat, n: nat)
    requires Stuck(store, stack, i)
    ensures Loop(store, stack, n).Running?
    decreases n
  {
    if n > 0 {
      var j := i;
      if i == |stack| - 1 {
        j := StuckAtTop(store, stack);
      } else {
        StuckBelow(store, stack, i);
      }
      EndlessKeepsRunning(store, Next(store, stack), j, n - 1);
    }
  }

  /** With everything after the k-th reference intact, nothing fails before the path through the k-th. */
  lemma NextIntact(store: Store, root: Cid, pre: seq<nat>, c: Cid, k: nat)
    requires Leads(store, root, pre, c) && !FailsBefore(store, root, pre)
    requires c in store && store[c].Block? && k < |store[c].refs| && !AnyBroken(store, store[c].refs[k + 1..])
    ensures !FailsBefore(store, root, pre + [k])
  {
    forall b
      ensures !(BreaksAt(store, root, b) && Before(b, pre + [k]))
    {
      if BreaksAt(store, root, b) && Before(b, pre + [k]) {
        BeforeSplits(b, pre, [k]);
        assert Before(b, pre) ==> FailsBefore(store, root, pre);
        var rest := b[|pre|..];
        assert b == pre + rest;
        BreaksOn(store, root, pre, c, rest);
        var m := rest[0];
        var r := store[c].refs[m];
        assert BreaksAt(store, r, rest[1..]);
        assert r in store[c].refs[k + 1..] && Broken(store, r) by {
          assert r == store[c].refs[k + 1..][m - k - 1];
        }
        assert false;
      }
    }
  }

  /** A walk that is not endless finishes with every CID that it gets to. */
  lemma {:induction false} Finishes(store: Store, root: Cid, pre: seq<nat>, c: Cid, passed: set<Cid>) returns (n: nat)
    requires !Endless(store, root)
    requires Leads(store, root, pre, c) && !FailsBefore(store, root, pre)
    requires forall x :: x in passed ==> Passes(store, root, pre, x)
    ensures !Loop(store, [c], n).Running?
    decreases |store.Keys - passed|, 0, 0
  {
    if c in passed {
      var a, b := PassedTwice(store, root, pre, c);
      assert false;
    }
    n := 1;
    if c in store && store[c].Block? {
      assert store.Keys - passed == (store.Keys - (passed + {c})) + {c};
      n := FinishesRefs(store, root, pre, c, passed + {c}, 0);
      var refs := store[c].refs;
      assert refs[0..] == refs && [c][..0] + refs == refs;
      n := n + 1;
    }
  }

  lemma {:induction false} FinishesRefs(store: Store, root: Cid, pre: seq<nat>, c: Cid, passed: set<Cid>, k: nat)
    returns (n: nat)
    requires !Endless(store, root)
    requires Leads(store, root, pre, c) && !FailsBefore(store, root, pre)
    requires c in store && store[c].Block? && k <= |store[c].refs|
    requires forall x :: x in passed ==> Passes(store, root, pre, x) || x == c
    ensures !Loop(store, store[c].refs[k..], n).Running?
    decreases |store.Keys - passed|, 1, |store[c].refs| - k
  {
    var refs := store[c].refs;
    n := 0;
    if k < |refs| {
      n := FinishesRefs(store, root, pre, c, passed, k + 1);
      assert refs[k..] == [refs[k]] + refs[k + 1..];
      var m := 0;
      if Loop(store, refs[k + 1..], n).Done? {
        FailsIffBroken(store, refs[k + 1..], n);
        NextIntact(store, root, pre, c, k);
        StepLeads(store, c, k);
        LeadsOn(store, root, pre, c, [k]);
        forall x | x in passed
          ensures Passes(store, root, pre + [k], x)
        {
          PassesMore(store, root, pre, k, x);
        }
        m := Finishes(store, root, pre + [k], refs[k], passed);
      }
      LoopSplits(store, [refs[k]], m, refs[k + 1..], n);
      n := n + m;
    }
  }

  /**
   There is no set of visited CIDs, so the walk ends if and only if every circle of references
   that it could enter lies behind an unreadable block. If it ends, it fails exactly when an
   unreadable block can be reached.
   */
  lemma WalkEndsIff(store: Store, root: Cid)
    ensures Ends(store, root) <==> !Endless(store, root)
    ensures forall n: nat :: Loop(store, [root], n).Done? ==> !Broken(store, root)
    ensures forall n: nat :: Loop(store, [root], n).Failed? ==> Broken(store, root)
  {
    forall n: nat
      ensures Loop(store, [root], n).Done? ==> !Broken(store, root)
      ensures Loop(store, [root], n).Failed? ==> Broken(store, root)
      ensures Endless(store, root) ==> Loop(store, [root], n).Running?
    {
      FailsIffBroken(store, [root], n);
      assert root in [root];
      if Endless(store, root) {
        EndlessKeepsRunning(store, [root], 0, n);
      }
    }
    if !Endless(store, root) {
      var n := Finishes(store, root, [], root, {});
    }
  }

  /** Where all blocks can be read, the walk ends exactly if no CID leads back to itself. */
  lemma ReadableWalkEndsIff(store: Store, root: Cid)
    requires !Broken(store, root)
    ensures Ends(store, root) <==> !Circular(store, root)
  {
    WalkEndsIff(store, root);
    if Circular(store, root) {
      var pre, loop :| Circles(store, root, pre, loop);
      assert !FailsBefore(store, root, pre + loop);
    }
  }

  /** The same two references, of a block to itself and to an unreadable one: their order decides. */
  lemma OrderOfReferencesMatters(a: Cid, u: Cid)
    requires a != u
    ensures var store := map[a := Block([a, u]), u := Unreadable]; Circular(store, a) && Ends(store, a)
    ensures var store := map[a := Block([u, a]), u := Unreadable]; Circular(store, a) && !Ends(store, a)
  {
    var store1, store2: Store := map[a := Block([a, u]), u := Unreadable], map[a := Block([u, a]), u := Unreadable];
    StepLeads(store1, a, 0);
    assert Circles(store1, a, [], [0]);
    assert [a][..0] + [a, u] == [a, u];
    assert Loop(store1, [a], 2) == Loop(store1, [a, u], 1) == Failed;
    StepLeads(store2, a, 1);
    assert Circles(store2, a, [], [1]);
    forall b
      ensures !(BreaksAt(store2, a, b) && Before(b, [] + [1]))
    {
    }
    WalkEndsIff(store2, a);
  }
}
