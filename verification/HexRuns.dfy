/** The byte printer: consecutive addresses grouped greedily into runs of at most sixteen that stay
    in one 64 KiB page. */
module HexRuns {
  import opened Wrappers
  import opened Ascending
  import opened HexRecord
  import opened MemoryImage
  import opened HexLoader
  import opened HexPrinter
  import opened HexRoundTrip

  /** The inner loop's guard: address `i + n` extends the run of `n` that starts at `i`. */
  predicate Extends(keys: seq<nat>, i: nat, n: nat) {
    && i + n < |keys| && n < CHUNK
    && keys[i + n] == keys[i] + n && Page(keys[i + n]) == Page(keys[i])
  }

  function RunLength(keys: seq<nat>, i: nat, n: nat): (r: nat)
    requires i < |keys| && n <= CHUNK
    ensures n <= r <= CHUNK
    decreases CHUNK - n
  {
    if Extends(keys, i, n) then RunLength(keys, i, n + 1) else n
  }

  /** The keys are addresses of the map. */
  predicate AllIn(keys: seq<nat>, m: map<nat, byte>) {
    forall k :: k in keys ==> k in m
  }

  function Gather(m: map<nat, byte>, keys: seq<nat>, i: nat, n: nat): (bytes: seq<byte>)
    requires i + n <= |keys| && AllIn(keys, m)
    ensures |bytes| == n
  {
    seq(n, j requires 0 <= j < n => m[keys[i + j]])
  }

  lemma GatherNext(m: map<nat, byte>, keys: seq<nat>, i: nat, n: nat)
    requires i + n < |keys| && AllIn(keys, m)
    ensures keys[i + n] in m && Gather(m, keys, i, n + 1) == Gather(m, keys, i, n) + [m[keys[i + n]]]
  {
  }

  lemma RunGoesOn(keys: seq<nat>, i: nat, n: nat)
    requires i + n < |keys| && n < CHUNK && keys[i + n] == keys[i] + n && Page(keys[i + n]) == Page(keys[i])
    ensures RunLength(keys, i, n) == RunLength(keys, i, n + 1)
  {
    hide Page;
  }

  lemma RunStops(keys: seq<nat>, i: nat, n: nat)
    requires i < |keys| && n <= CHUNK
    requires !(i + n < |keys| && n < CHUNK && keys[i + n] == keys[i] + n && Page(keys[i + n]) == Page(keys[i]))
    ensures RunLength(keys, i, n) == n
  {
    hide Page;
  }

  /** Index `k` continues the run that starts at index `i`. */
  predicate InRun(keys: seq<nat>, i: nat, k: nat)
    requires i < |keys| && k < |keys|
  {
    keys[k] == keys[i] + (k - i) && Page(keys[k]) == Page(keys[i])
  }

  lemma {:induction false} RunShape(keys: seq<nat>, i: nat, n: nat)
    requires i < |keys| && n <= CHUNK && i + n <= |keys|
    requires forall k :: i <= k < i + n ==> InRun(keys, i, k)
    ensures i + RunLength(keys, i, n) <= |keys|
    ensures forall k :: i <= k < i + RunLength(keys, i, n) ==> InRun(keys, i, k)
    decreases CHUNK - n
  {
    if Extends(keys, i, n) {
      assert InRun(keys, i, i + n);
      RunShape(keys, i, n + 1);
    }
  }

  /** A run is never empty, so the outer loop always advances. */
  lemma RunProgress(keys: seq<nat>, i: nat)
    requires i < |keys|
    ensures 1 <= RunLength(keys, i, 0) && i + RunLength(keys, i, 0) <= |keys|
  {
    RunShape(keys, i, 0);
    assert Extends(keys, i, 0);
  }

  function RunAt(m: map<nat, byte>, keys: seq<nat>, i: nat): (run: Block)
    requires i < |keys| && AllIn(keys, m)
    ensures 1 <= |run.bytes| <= CHUNK && run.at == keys[i]
  {
    RunProgress(keys, i);
    Block(keys[i], Gather(m, keys, i, RunLength(keys, i, 0)))
  }

  lemma GatheredIsRun(m: map<nat, byte>, keys: seq<nat>, i: nat)
    requires i < |keys| && AllIn(keys, m)
    ensures i + RunLength(keys, i, 0) <= |keys|
    ensures Gather(m, keys, i, 0) == [] && RunAt(m, keys, i).bytes == Gather(m, keys, i, RunLength(keys, i, 0))
  {
    RunProgress(keys, i);
  }

  /** The runs from index `i` on. */
  function Runs(m: map<nat, byte>, keys: seq<nat>, i: nat): (runs: seq<Block>)
    requires i <= |keys| && AllIn(keys, m)
    decreases |keys| - i
  {
    if i == |keys| then []
    else
      RunProgress(keys, i);
      [RunAt(m, keys, i)] + Runs(m, keys, i + RunLength(keys, i, 0))
  }

  function AllRuns(m: map<nat, byte>): (runs: seq<Block>)
  {
    Runs(m, Sorted(m.Keys), 0)
  }

  // ---- the runs cover the map ----------------------------------------------------------------

  /** What every run is: a non-empty slice of the map, at most a chunk long and in one page. */
  ghost predicate IsRun(m: map<nat, byte>, b: Block) {
    && 1 <= |b.bytes| <= CHUNK
    && forall x: nat :: b.Covers(x) ==> x in m && m[x] == b.bytes[x - b.at] && Page(x) == Page(b.at)
  }

  lemma RunIsRun(m: map<nat, byte>, keys: seq<nat>, i: nat)
    requires i < |keys| && AllIn(keys, m)
    ensures IsRun(m, RunAt(m, keys, i))
  {
    hide RunAt, AllIn, Page;
    forall x: nat | RunAt(m, keys, i).Covers(x)
      ensures x in m && m[x] == RunAt(m, keys, i).bytes[x - keys[i]] && Page(x) == Page(keys[i])
    {
      RunHolds(m, keys, i, x);
    }
  }

  lemma RunHolds(m: map<nat, byte>, keys: seq<nat>, i: nat, x: nat)
    requires i < |keys| && AllIn(keys, m) && RunAt(m, keys, i).Covers(x)
    ensures x in m && m[x] == RunAt(m, keys, i).bytes[x - keys[i]] && Page(x) == Page(keys[i])
  {
    hide RunLength, Page, Gather, InRun, AllIn;
    RunProgress(keys, i);
    RunIndex(keys, i, x - keys[i]);
    RunByte(m, keys, i, RunLength(keys, i, 0), x - keys[i]);
  }

  lemma RunIndex(keys: seq<nat>, i: nat, d: nat)
    requires i < |keys| && d < RunLength(keys, i, 0)
    ensures i + d < |keys| && InRun(keys, i, i + d)
  {
    hide RunLength, InRun;
    RunShape(keys, i, 0);
  }

  lemma RunByte(m: map<nat, byte>, keys: seq<nat>, i: nat, n: nat, d: nat)
    requires d < n && i + n <= |keys| && AllIn(keys, m) && InRun(keys, i, i + d)
    ensures keys[i] + d in m && m[keys[i] + d] == Gather(m, keys, i, n)[d]
    ensures Page(keys[i] + d) == Page(keys[i])
  {
    hide Page;
    assert keys[i + d] == keys[i] + d && keys[i + d] in keys;
  }

  lemma {:induction false} RunsAreRuns(m: map<nat, byte>, keys: seq<nat>, i: nat)
    requires i <= |keys| && AllIn(keys, m)
    ensures forall r :: 0 <= r < |Runs(m, keys, i)| ==> IsRun(m, Runs(m, keys, i)[r])
    decreases |keys| - i
  {
    hide RunAt, RunLength, AllIn, Runs, IsRun;
    RunsUnfold(m, keys, i);
    if i == |keys| {
      NoRuns(m, keys);
    } else {
      RunIsRun(m, keys, i);
      RunsAreRuns(m, keys, i + RunLength(keys, i, 0));
    }
  }

  lemma {:induction false} RunsCover(m: map<nat, byte>, keys: seq<nat>, i: nat, k: nat) returns (r: nat)
    requires i <= k < |keys| && AllIn(keys, m)
    ensures r < |Runs(m, keys, i)| && Runs(m, keys, i)[r].Covers(keys[k])
    decreases |keys| - i
  {
    RunsUnfold(m, keys, i);
    hide Runs, RunLength, AllIn;
    var n := RunLength(keys, i, 0);
    if k < i + n {
      r := 0;
      RunIndex(keys, i, k - i);
    } else {
      r := RunsCover(m, keys, i + n, k);
      r := r + 1;
    }
  }

  lemma {:induction false} RunsAfter(m: map<nat, byte>, keys: seq<nat>, i: nat, r: nat)
    requires i < |keys| && Ascends(keys) && AllIn(keys, m)
    requires r < |Runs(m, keys, i)|
    ensures keys[i] <= Runs(m, keys, i)[r].at
    decreases |keys| - i
  {
    hide Runs, RunLength, DisjointBlocks, AllIn;
    RunsUnfold(m, keys, i);
    var n := RunLength(keys, i, 0);
    if r > 0 {
      RunsUnfold(m, keys, i + n);
      if i + n < |keys| {
        RunsAfter(m, keys, i + n, r - 1);
      } else {
        NoRuns(m, keys);
      }
    }
  }

  lemma NoRuns(m: map<nat, byte>, keys: seq<nat>)
    requires AllIn(keys, m)
    ensures Runs(m, keys, |keys|) == []
  {
  }

  lemma DisjointCons(first: Block, rest: seq<Block>)
    requires DisjointBlocks(rest) && forall r :: 0 <= r < |rest| ==> first.End() <= rest[r].at
    ensures DisjointBlocks([first] + rest)
  {
  }

  lemma {:induction false} RunsDisjoint(m: map<nat, byte>, keys: seq<nat>, i: nat)
    requires i <= |keys| && Ascends(keys) && AllIn(keys, m)
    ensures DisjointBlocks(Runs(m, keys, i))
    decreases |keys| - i
  {
    hide Runs, RunAt, RunLength, DisjointBlocks, Ascends, AllIn;
    RunsUnfold(m, keys, i);
    if i < |keys| {
      RunEndsBefore(m, keys, i);
      var n := RunLength(keys, i, 0);
      var first, rest := RunAt(m, keys, i), Runs(m, keys, i + n);
      RunsDisjoint(m, keys, i + n);
      forall r | 0 <= r < |rest|
        ensures first.End() <= rest[r].at
      {
        RunsAfter(m, keys, i + n, r);
      }
      DisjointCons(first, rest);
    }
  }

  lemma RunsUnfold(m: map<nat, byte>, keys: seq<nat>, i: nat)
    requires i <= |keys| && AllIn(keys, m)
    ensures i == |keys| ==> DisjointBlocks(Runs(m, keys, i))
    ensures i < |keys| ==>
              && 1 <= RunLength(keys, i, 0) && i + RunLength(keys, i, 0) <= |keys|
              && Runs(m, keys, i) == [RunAt(m, keys, i)] + Runs(m, keys, i + RunLength(keys, i, 0))
  {
    hide RunAt, RunLength;
    if i < |keys| {
      RunProgress(keys, i);
    }
  }

  /** A run ends at or below the address behind it in the list. */
  lemma RunEndsBefore(m: map<nat, byte>, keys: seq<nat>, i: nat)
    requires i < |keys| && Ascends(keys) && AllIn(keys, m)
    ensures i + RunLength(keys, i, 0) <= |keys|
    ensures Runs(m, keys, i + RunLength(keys, i, 0)) != [] ==>
              && i + RunLength(keys, i, 0) < |keys|
              && RunAt(m, keys, i).End() <= keys[i + RunLength(keys, i, 0)]
  {
    RunProgress(keys, i);
    RunShape(keys, i, 0);
    hide RunLength, Gather, Page;
    assert InRun(keys, i, i + RunLength(keys, i, 0) - 1);
  }

  /** Storing blocks that only repeat the map's bytes, and cover it, gives the map. */
  lemma OverlayIsMap(items: seq<Block>, m: map<nat, byte>)
    requires forall r :: 0 <= r < |items| ==> IsRun(m, items[r])
    requires forall x :: x in m ==> exists r :: 0 <= r < |items| && items[r].Covers(x)
    ensures Overlay(items) == m
  {
    forall x: nat
      ensures At(Overlay(items), x) == At(m, x)
    {
      if x in m {
        var r :| 0 <= r < |items| && items[r].Covers(x);
        OverlayCovers(items, r, x);
      }
      if At(Overlay(items), x).Some? {
        OverlayRepeats(items, m, x);
      }
    }
    SameView(Overlay(items), m);
  }

  lemma {:induction false} OverlayRepeats(items: seq<Block>, m: map<nat, byte>, x: nat)
    requires forall r :: 0 <= r < |items| ==> IsRun(m, items[r])
    requires At(Overlay(items), x).Some?
    ensures At(Overlay(items), x) == At(m, x)
  {
    OverlayStep(items, x);
    var last := items[|items| - 1];
    if last.Covers(x) {
      assert IsRun(m, last);
    } else {
      OverlayRepeats(items[..|items| - 1], m, x);
    }
  }

  lemma RunsNotEmpty(items: seq<Block>, m: map<nat, byte>)
    requires forall r :: 0 <= r < |items| ==> IsRun(m, items[r])
    ensures NoneEmpty(items)
  {
  }

  lemma AllRunsShow(m: map<nat, byte>)
    ensures Overlay(AllRuns(m)) == m
    ensures DisjointBlocks(AllRuns(m)) && NoneEmpty(AllRuns(m))
    ensures forall r :: 0 <= r < |AllRuns(m)| ==> IsRun(m, AllRuns(m)[r])
  {
    var keys := Sorted(m.Keys);
    RunsAreRuns(m, keys, 0);
    RunsDisjoint(m, keys, 0);
    hide IsRun, Overlay, DisjointBlocks, NoneEmpty, Runs, Ascends, AllIn, Block.Covers;
    RunsNotEmpty(AllRuns(m), m);
    forall x | x in m
      ensures exists r :: 0 <= r < |AllRuns(m)| && AllRuns(m)[r].Covers(x)
    {
      assert x in keys;
      var k :| 0 <= k < |keys| && keys[k] == x;
      var r := RunsCover(m, keys, 0, k);
      assert AllRuns(m)[r].Covers(x);
    }
    OverlayIsMap(AllRuns(m), m);
  }

  lemma RunInPage(m: map<nat, byte>, b: Block)
    requires IsRun(m, b)
    ensures InPage(b) <==> b.at < LIMIT
  {
    assert PieceCount(|b.bytes|) == 1;
  }

  // ---- main results --------------------------------------------------------------------------

  /** The byte printer followed by the loader is the identity on exactly the maps whose addresses
      are all below 2^32. */
  lemma BytePrinterExact(m: map<nat, byte>)
    ensures ApplyAll(FRESH, Print(AllRuns(m))).file.data == m <==> forall x :: x in m ==> x < LIMIT
  {
    AllRunsShow(m);
    LoadPrintedExact(AllRuns(m));
    if forall x :: x in m ==> x < LIMIT {
      LowRunsInPage(m);
    } else {
      var x :| x in m && x >= LIMIT;
      HighRunStrays(m, x);
    }
  }

  lemma LowRunsInPage(m: map<nat, byte>)
    requires forall x :: x in m ==> x < LIMIT
    ensures AllInPage(AllRuns(m))
  {
    AllRunsShow(m);
    forall r | 0 <= r < |AllRuns(m)|
      ensures InPage(AllRuns(m)[r])
    {
      var b := AllRuns(m)[r];
      assert IsRun(m, b) && b.Covers(b.at);
      RunInPage(m, b);
    }
  }

  lemma HighRunStrays(m: map<nat, byte>, x: nat)
    requires x in m && x >= LIMIT
    ensures !AllInPage(AllRuns(m))
  {
    hide Page, Overlay, AllRuns;
    AllRunsShow(m);
    var r := OverlayFrom(AllRuns(m), x);
    var b := AllRuns(m)[r];
    assert IsRun(m, b) && b.Covers(b.at);
    RunInPage(m, b);
    if b.at < LIMIT {
      assert b.Covers(LIMIT);
      PagesApart(b.at);
    }
  }

  lemma PagesApart(at: nat)
    requires LIMIT - CHUNK <= at < LIMIT
    ensures Page(at) != Page(LIMIT)
  {
    assert at / PAGE == 0xFFFF;
  }

  /** For disjoint blocks in their pages, with the byte map their flattening, the lines of both
      printers load to the same bytes. */
  lemma PrintersAgree(blocks: map<nat, seq<byte>>, data: map<nat, byte>)
    requires data == Flatten(blocks) && AllInPage(Items(blocks)) && forall x :: x in data ==> x < LIMIT
    ensures ApplyAll(FRESH, Print(Items(blocks))).file.data
         == ApplyAll(FRESH, Print(AllRuns(data))).file.data == data
  {
    ItemsAscend(blocks);
    LoadPrintedInPage(Items(blocks));
    BytePrinterExact(data);
  }
}
