/** The pure side of the dependency scheduler: when an import-set entry is
    closed under its dependencies, when it is ready to leave the import set,
    how one scan splits the import set, and the byte count of what remains. */
module Schedule {
  import opened Values
  import opened Registry

  /** A sequence without repeated names. */
  predicate NoDup(s: seq<string>) {
    forall i, j :: 0 <= i < j < |s| ==> s[i] != s[j]
  }

  predicate AllRegistered(packs: Packs, s: seq<string>) {
    forall x :: x in s ==> x in packs
  }

  /** The names of a duplicate-free sequence are as many as its length. */
  lemma {:induction false} NoDupCard(s: seq<string>)
    requires NoDup(s)
    ensures |set x | x in s| == |s|
  {
    if s != [] {
      var init := s[..|s| - 1];
      var x := s[|s| - 1];
      assert NoDup(init);
      NoDupCard(init);
      assert (set y | y in s) == (set y | y in init) + {x};
      assert x !in init;
    }
  }

  /** A subset is no larger than its superset. */
  lemma {:induction false} SubsetCard(a: set<string>, b: set<string>)
    requires a <= b
    ensures |a| <= |b|
    decreases |a|
  {
    if a != {} {
      var x :| x in a;
      SubsetCard(a - {x}, b - {x});
    }
  }

  /** A duplicate-free sequence of registered names is no longer than the
      registry, so the closure cannot grow the import set for ever. */
  lemma NoDupBound(packs: Packs, s: seq<string>)
    requires NoDup(s) && AllRegistered(packs, s)
    ensures |s| <= |packs|
  {
    NoDupCard(s);
    SubsetCard((set x | x in s), packs.Keys);
    assert |packs.Keys| == |packs|;
  }

  // ---------------------------------------------------------------------
  // Closure (_addToImportSet)
  // ---------------------------------------------------------------------

  /** A name the closure need not expand any more: already in the import set,
      or registered and at least importing. */
  predicate Covered(packs: Packs, s: seq<string>, d: string) {
    d in s || (d in packs && Level(packs[d].state) >= Level(Importing))
  }

  /** Every dependency of `x`, with any leading `>` stripped, is covered. */
  predicate Closed(packs: Packs, s: seq<string>, x: string)
    requires x in packs
  {
    forall k :: 0 <= k < |packs[x].deps| ==> Covered(packs, s, Strip(packs[x].deps[k]))
  }

  /** Covering survives growth of the import set. */
  lemma CoveredGrows(packs: Packs, s: seq<string>, t: seq<string>, d: string)
    requires s <= t && Covered(packs, s, d)
    ensures Covered(packs, t, d)
  {
    if d in s {
      var i :| 0 <= i < |s| && s[i] == d;
      assert t[i] == d;
    }
  }

  /** Closedness survives growth of the import set. */
  lemma ClosedGrows(packs: Packs, s: seq<string>, t: seq<string>, x: string)
    requires x in packs && s <= t && Closed(packs, s, x)
    ensures Closed(packs, t, x)
  {
    forall k | 0 <= k < |packs[x].deps|
      ensures Covered(packs, t, Strip(packs[x].deps[k]))
    {
      CoveredGrows(packs, s, t, Strip(packs[x].deps[k]));
    }
  }

  /** One dependency of the closure loop: once the recursive call has covered
      dependency i and closed everything it appended, the first i + 1
      dependencies are covered and every entry after the start is closed. */
  lemma ClosureStep(packs: Packs, before: seq<string>, after: seq<string>, start: nat,
                    deps: seq<string>, i: nat)
    requires AllRegistered(packs, before) && AllRegistered(packs, after)
    requires before <= after && i < |deps| && start <= |before|
    requires forall k :: 0 <= k < i ==> Covered(packs, before, Strip(deps[k]))
    requires forall k :: start < k < |before| ==> Closed(packs, before, before[k])
    requires Covered(packs, after, Strip(deps[i]))
    requires forall k :: |before| <= k < |after| ==> Closed(packs, after, after[k])
    ensures forall k :: 0 <= k < i + 1 ==> Covered(packs, after, Strip(deps[k]))
    ensures forall k :: start < k < |after| ==> Closed(packs, after, after[k])
  {
    forall k | 0 <= k < i
      ensures Covered(packs, after, Strip(deps[k]))
    {
      CoveredGrows(packs, before, after, Strip(deps[k]));
    }
    forall k | start < k < |before|
      ensures Closed(packs, after, after[k])
    {
      assert after[k] == before[k];
      ClosedGrows(packs, before, after, before[k]);
    }
  }

  /** `y` is a dependency of the registered package `x`, with `>` stripped. */
  predicate DepOf(packs: Packs, x: string, y: string) {
    x in packs && exists d :: 0 <= d < |packs[x].deps| && Strip(packs[x].deps[d]) == y
  }

  /** Every entry of `s` after position `start` is a dependency of an
      earlier entry from `start` on: the part of `s` from `start` was reached
      from `s[start]` along dependency edges only. */
  predicate Reached(packs: Packs, s: seq<string>, start: nat) {
    forall k: nat :: start < k < |s| ==> ReachedAt(packs, s, start, k)
  }

  /** Entry k of `s` is a dependency of an earlier entry from `start` on. */
  predicate ReachedAt(packs: Packs, s: seq<string>, start: nat, k: nat) {
    k < |s| && exists j :: start <= j < k && DepOf(packs, s[j], s[k])
  }

  /** The per-dependency step of the closure for minimality: what the nested
      call appends was reached from its argument, itself a dependency of the
      entry at `start`. */
  lemma ReachStep(packs: Packs, before: seq<string>, after: seq<string>, start: nat, dep: string)
    requires start < |before| && before <= after
    requires Reached(packs, before, start)
    requires Reached(packs, after, |before|)
    requires |after| > |before| ==> after[|before|] == dep
    requires DepOf(packs, before[start], dep)
    ensures Reached(packs, after, start)
  {
    forall k: nat | start < k < |after|
      ensures ReachedAt(packs, after, start, k)
    {
      if k < |before| {
        assert ReachedAt(packs, before, start, k);
        var j :| start <= j < k && DepOf(packs, before[j], before[k]);
        assert after[j] == before[j] && after[k] == before[k];
      } else if k == |before| {
        assert after[start] == before[start] && DepOf(packs, after[start], after[k]);
      } else {
        assert ReachedAt(packs, after, |before|, k);
        var j :| |before| <= j < k && DepOf(packs, after[j], after[k]);
      }
    }
  }

  /** One pass of the closure's dependency loop: the entry at `start` has had
      its dependency `i` added (`ok` when the nested call did not throw), and
      the facts the loop keeps carry over to the grown import set. */
  lemma ExpandStep(packs: Packs, before: seq<string>, after: seq<string>, start: nat,
                   deps: seq<string>, i: nat, ok: bool)
    requires AllRegistered(packs, before) && AllRegistered(packs, after)
    requires before <= after && start < |before| && i < |deps|
    requires before[start] in packs && packs[before[start]].deps == deps
    requires Reached(packs, before, start) && Reached(packs, after, |before|)
    requires |after| > |before| ==> after[|before|] == Strip(deps[i])
    requires forall k :: start <= k < |before| ==> Level(packs[before[k]].state) < Level(Importing)
    requires forall k :: |before| <= k < |after| ==> Level(packs[after[k]].state) < Level(Importing)
    requires forall k :: 0 <= k < i ==> Covered(packs, before, Strip(deps[k]))
    requires forall k :: start < k < |before| ==> Closed(packs, before, before[k])
    requires ok ==> Covered(packs, after, Strip(deps[i]))
    requires ok ==> forall k :: |before| <= k < |after| ==> Closed(packs, after, after[k])
    ensures Reached(packs, after, start)
    ensures forall k :: start <= k < |after| ==> Level(packs[after[k]].state) < Level(Importing)
    ensures ok ==> forall k :: 0 <= k < i + 1 ==> Covered(packs, after, Strip(deps[k]))
    ensures ok ==> forall k :: start < k < |after| ==> Closed(packs, after, after[k])
  {
    assert DepOf(packs, before[start], Strip(deps[i]));
    ReachStep(packs, before, after, start, Strip(deps[i]));
    forall k | start <= k < |after|
      ensures Level(packs[after[k]].state) < Level(Importing)
    {
      if k < |before| {
        assert after[k] == before[k];
      }
    }
    if ok {
      ClosureStep(packs, before, after, start, deps, i);
    }
  }

  // ---------------------------------------------------------------------
  // Readiness (the dependency test of _tryImport)
  // ---------------------------------------------------------------------

  /** A dependency `d` of `dependent` does not block it: it is deferred (`>`),
      or it is registered and either at least imported or in the same file. */
  predicate Satisfied(packs: Packs, dependent: Package, d: string) {
    || Deferred(d)
    || (d in packs && (Level(packs[d].state) >= Level(Imported) || packs[d].file == dependent.file))
  }

  /** No dependency of `p` blocks it. */
  predicate Ready(packs: Packs, p: Package) {
    forall k :: 0 <= k < |p.deps| ==> Satisfied(packs, p, p.deps[k])
  }

  /** A `>` dependency never blocks: adding one changes nothing. */
  lemma DeferredNeverBlocks(packs: Packs, p: Package, x: string)
    ensures Ready(packs, p.(deps := p.deps + [">" + x])) <==> Ready(packs, p)
  {
    var q := p.(deps := p.deps + [">" + x]);
    assert Deferred(q.deps[|p.deps|]);
    if Ready(packs, p) {
      forall k | 0 <= k < |q.deps| ensures Satisfied(packs, q, q.deps[k]) {
        if k < |p.deps| { assert q.deps[k] == p.deps[k]; }
      }
    }
    if Ready(packs, q) {
      forall k | 0 <= k < |p.deps| ensures Satisfied(packs, p, p.deps[k]) {
        assert q.deps[k] == p.deps[k];
        assert Satisfied(packs, q, q.deps[k]);
      }
    }
  }

  /** The same-file exception: a package whose hard dependencies are all
      registered in its own file is ready whatever their states. */
  lemma SameFileReady(packs: Packs, p: Package)
    requires forall k :: 0 <= k < |p.deps| && !Deferred(p.deps[k]) ==>
               p.deps[k] in packs && packs[p.deps[k]].file == p.file
    ensures Ready(packs, p)
  {
  }

  /** A hard dependency blocks exactly when it is unregistered, or below
      STATE_IMPORTED in another file. */
  lemma BlockedBy(packs: Packs, p: Package)
    ensures !Ready(packs, p) <==>
              exists k :: 0 <= k < |p.deps| && !Deferred(p.deps[k]) &&
                (p.deps[k] !in packs ||
                 (Level(packs[p.deps[k]].state) < Level(Imported) && packs[p.deps[k]].file != p.file))
  {
    if !Ready(packs, p) {
      var k :| 0 <= k < |p.deps| && !Satisfied(packs, p, p.deps[k]);
    }
  }

  // ---------------------------------------------------------------------
  // One scan of the import set
  // ---------------------------------------------------------------------

  /** The entries a scan keeps (not ready), in order. */
  function Blocked(packs: Packs, s: seq<string>): seq<string>
    requires AllRegistered(packs, s)
  {
    if s == [] then []
    else
      var init := s[..|s| - 1];
      var x := s[|s| - 1];
      Blocked(packs, init) + (if Ready(packs, packs[x]) then [] else [x])
  }

  /** The entries a scan removes (ready), in order. */
  function Removed(packs: Packs, s: seq<string>): seq<string>
    requires AllRegistered(packs, s)
  {
    if s == [] then []
    else
      var init := s[..|s| - 1];
      var x := s[|s| - 1];
      Removed(packs, init) + (if Ready(packs, packs[x]) then [x] else [])
  }

  /** The batch: the removed entries still at STATE_NONE or STATE_SEEN. */
  function Batch(packs: Packs, s: seq<string>): seq<string>
    requires AllRegistered(packs, s)
  {
    if s == [] then []
    else
      var init := s[..|s| - 1];
      var x := s[|s| - 1];
      Batch(packs, init) +
        (if Ready(packs, packs[x]) && Level(packs[x].state) <= Level(Seen) then [x] else [])
  }

  /** The scan splits the import set exactly: an entry stays iff it is not
      ready, leaves iff it is ready, enters the batch iff it leaves while at
      most seen; the two parts together are as long as the whole. */
  lemma {:induction false} ScanSplit(packs: Packs, s: seq<string>, x: string)
    requires AllRegistered(packs, s)
    ensures x in Blocked(packs, s) <==> x in s && !Ready(packs, packs[x])
    ensures x in Removed(packs, s) <==> x in s && Ready(packs, packs[x])
    ensures x in Batch(packs, s) <==> x in Removed(packs, s) && Level(packs[x].state) <= Level(Seen)
    ensures |Blocked(packs, s)| + |Removed(packs, s)| == |s|
    ensures |Batch(packs, s)| <= |Removed(packs, s)|
  {
    if s != [] {
      var init := s[..|s| - 1];
      assert s == init + [s[|s| - 1]];
      assert AllRegistered(packs, init);
      ScanSplit(packs, init, x);
    }
  }

  /** A non-empty batch means the import set shrank. */
  lemma BatchShrinks(packs: Packs, s: seq<string>)
    requires AllRegistered(packs, s) && |Batch(packs, s)| > 0
    ensures |Blocked(packs, s)| < |s|
  {
    ScanSplit(packs, s, s[0]);
  }

  /** The kept entries are a sub-list of the import set, so each appears at
      most once if the import set had no duplicates. */
  lemma {:induction false} BlockedNoDup(packs: Packs, s: seq<string>)
    requires AllRegistered(packs, s) && NoDup(s)
    ensures NoDup(Blocked(packs, s))
    ensures AllRegistered(packs, Blocked(packs, s))
  {
    if s != [] {
      var init := s[..|s| - 1];
      var x := s[|s| - 1];
      assert AllRegistered(packs, init);
      assert NoDup(init);
      BlockedNoDup(packs, init);
      ScanSplit(packs, init, x);
      assert x !in init;
      var b := Blocked(packs, init);
      assert Blocked(packs, s) == b + (if Ready(packs, packs[x]) then [] else [x]);
      forall y | y in Blocked(packs, s) ensures y in packs {
        ScanSplit(packs, s, y);
      }
    }
  }

  /** One step of the scan: the entry at index j is kept or removed, and
      enters the batch, on its own readiness and state alone. */
  lemma ScanStep(packs: Packs, s: seq<string>, j: nat)
    requires AllRegistered(packs, s) && j < |s|
    ensures AllRegistered(packs, s[..j]) && AllRegistered(packs, s[..j + 1])
    ensures Blocked(packs, s[..j + 1]) ==
              Blocked(packs, s[..j]) + (if Ready(packs, packs[s[j]]) then [] else [s[j]])
    ensures Batch(packs, s[..j + 1]) ==
              Batch(packs, s[..j]) +
                (if Ready(packs, packs[s[j]]) && Level(packs[s[j]].state) <= Level(Seen) then [s[j]] else [])
  {
    assert s[..j + 1][..j] == s[..j];
    assert forall x :: x in s[..j + 1] ==> x in s;
  }

  /** The batch half of one scan step, for the entry already read and
      the readiness already computed. */
  lemma BatchStep(packs: Packs, orig: seq<string>, j: nat, name: string, okay: bool)
    requires AllRegistered(packs, orig) && j < |orig| && name == orig[j]
    requires okay == Ready(packs, packs[name])
    ensures AllRegistered(packs, orig[..j]) && AllRegistered(packs, orig[..j + 1])
    ensures Batch(packs, orig[..j + 1]) ==
              Batch(packs, orig[..j]) + (if okay && Level(packs[name].state) <= Level(Seen) then [name] else [])
  {
    ScanStep(packs, orig, j);
  }

  /** The in-place form of one scan step: with the entries before index j
      already scanned, the entry under the cursor is orig[j], and splicing it
      out (ready) or stepping past it (not ready) leaves the scan one entry
      further on. */
  lemma ScanAdvance(packs: Packs, orig: seq<string>, j: nat, cur: seq<string>)
    requires AllRegistered(packs, orig) && j < |orig|
    requires AllRegistered(packs, orig[..j])
    requires cur == Blocked(packs, orig[..j]) + orig[j..]
    ensures AllRegistered(packs, orig[..j + 1])
    ensures var i := |Blocked(packs, orig[..j])|;
            && i < |cur| && cur[i] == orig[j]
            && (Ready(packs, packs[orig[j]]) ==>
                  && cur[..i] + cur[i + 1..] == Blocked(packs, orig[..j + 1]) + orig[j + 1..]
                  && i == |Blocked(packs, orig[..j + 1])|)
            && (!Ready(packs, packs[orig[j]]) ==>
                  && cur == Blocked(packs, orig[..j + 1]) + orig[j + 1..]
                  && i + 1 == |Blocked(packs, orig[..j + 1])|)
  {
    ScanStep(packs, orig, j);
    var kept := Blocked(packs, orig[..j]);
    assert orig[j..] == [orig[j]] + orig[j + 1..];
    assert cur[..|kept|] == kept && cur[|kept| + 1..] == orig[j + 1..];
  }

  /** An empty import set gives an empty scan. */
  lemma ScanEmpty(packs: Packs)
    ensures Blocked(packs, []) == [] && Removed(packs, []) == [] && Batch(packs, []) == []
  {
  }

  // ---------------------------------------------------------------------
  // getBytes
  // ---------------------------------------------------------------------

  /** The sum of the sizes of the named packages. */
  function Bytes(packs: Packs, s: seq<string>): int
    requires AllRegistered(packs, s)
  {
    if s == [] then 0 else packs[s[0]].size + Bytes(packs, s[1..])
  }

  /** The byte count is additive over concatenation. */
  lemma {:induction false} BytesAppend(packs: Packs, a: seq<string>, b: seq<string>)
    requires AllRegistered(packs, a) && AllRegistered(packs, b)
    ensures AllRegistered(packs, a + b)
    ensures Bytes(packs, a + b) == Bytes(packs, a) + Bytes(packs, b)
  {
    if a != [] {
      assert (a + b)[0] == a[0];
      assert (a + b)[1..] == a[1..] + b;
      BytesAppend(packs, a[1..], b);
    } else {
      assert a + b == b;
    }
  }

  /** A scan moves bytes out of the remaining count: what stays plus what
      left adds up to what was there. */
  lemma {:induction false} BytesSplit(packs: Packs, s: seq<string>)
    requires AllRegistered(packs, s)
    ensures AllRegistered(packs, Blocked(packs, s)) && AllRegistered(packs, Removed(packs, s))
    ensures Bytes(packs, s) == Bytes(packs, Blocked(packs, s)) + Bytes(packs, Removed(packs, s))
  {
    forall x | x in Blocked(packs, s) || x in Removed(packs, s) ensures x in packs {
      ScanSplit(packs, s, x);
    }
    if s != [] {
      var init := s[..|s| - 1];
      var x := s[|s| - 1];
      assert s == init + [x];
      assert AllRegistered(packs, init);
      BytesSplit(packs, init);
      BytesAppend(packs, init, [x]);
      assert Bytes(packs, [x]) == packs[x].size;
      assert s[..|s| - 1] == init;
      if Ready(packs, packs[x]) {
        assert Blocked(packs, s) == Blocked(packs, init);
        assert Removed(packs, s) == Removed(packs, init) + [x];
        BytesAppend(packs, Removed(packs, init), [x]);
      } else {
        assert Blocked(packs, s) == Blocked(packs, init) + [x];
        assert Removed(packs, s) == Removed(packs, init);
        BytesAppend(packs, Blocked(packs, init), [x]);
      }
    }
  }

  /** With non-negative sizes the remaining byte count never goes negative. */
  lemma {:induction false} BytesNonNegative(packs: Packs, s: seq<string>)
    requires AllRegistered(packs, s)
    requires forall x :: x in s ==> packs[x].size >= 0
    ensures Bytes(packs, s) >= 0
  {
    if s != [] {
      assert forall x :: x in s[1..] ==> x in s;
      BytesNonNegative(packs, s[1..]);
    }
  }
}
