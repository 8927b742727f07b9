/** Two views of a flash image: a byte per address, and blocks of bytes by start address. */
module MemoryImage {
  import opened Wrappers
  import opened Ascending

  datatype Block = Block(at: nat, bytes: seq<byte>) {
    function End(): (e: nat) { at + |bytes| }
    predicate Covers(x: nat) { at <= x < End() }
  }

  /** Store `bytes` at consecutive addresses from `at`. */
  function Write(m: map<nat, byte>, at: nat, bytes: seq<byte>): (r: map<nat, byte>)
  {
    if bytes == [] then m
    else Write(m, at, bytes[..|bytes| - 1])[at + |bytes| - 1 := bytes[|bytes| - 1]]
  }

  /** What remains after storing blocks one after the other: a later block wins. */
  function Overlay(blocks: seq<Block>): (m: map<nat, byte>)
  {
    if blocks == [] then map[]
    else
      var last := blocks[|blocks| - 1];
      Write(Overlay(blocks[..|blocks| - 1]), last.at, last.bytes)
  }

  /** The blocks of a block map in address order. */
  function Items(blocks: map<nat, seq<byte>>): (items: seq<Block>)
    ensures |items| == |Sorted(blocks.Keys)|
  {
    var keys := Sorted(blocks.Keys);
    seq(|keys|, i requires 0 <= i < |keys| => Block(keys[i], blocks[keys[i]]))
  }

  /** The byte view a block map stands for when its blocks are printed in address order. */
  function Flatten(blocks: map<nat, seq<byte>>): (m: map<nat, byte>)
  {
    Overlay(Items(blocks))
  }

  predicate AscendingBlocks(items: seq<Block>) {
    forall i, j :: 0 <= i < j < |items| ==> items[i].at < items[j].at
  }

  /** Start addresses strictly increase and no block reaches into the next. */
  predicate DisjointBlocks(items: seq<Block>) {
    forall i, j :: 0 <= i < j < |items| ==> items[i].End() <= items[j].at
  }

  function BlockMap(items: seq<Block>): (m: map<nat, seq<byte>>)
  {
    if items == [] then map[]
    else BlockMap(items[..|items| - 1])[items[|items| - 1].at := items[|items| - 1].bytes]
  }

  lemma ItemsAscend(blocks: map<nat, seq<byte>>)
    ensures AscendingBlocks(Items(blocks))
    ensures forall i :: 0 <= i < |Items(blocks)| ==>
              Items(blocks)[i].at in blocks && Items(blocks)[i].bytes == blocks[Items(blocks)[i].at]
    ensures forall s :: s in blocks ==> Block(s, blocks[s]) in Items(blocks)
  {
    var keys, items := Sorted(blocks.Keys), Items(blocks);
    forall s | s in blocks
      ensures Block(s, blocks[s]) in items
    {
      assert s in keys;
      var i :| 0 <= i < |keys| && keys[i] == s;
      assert items[i] == Block(s, blocks[s]);
    }
  }

  lemma {:induction false} BlockMapOf(items: seq<Block>)
    requires AscendingBlocks(items)
    ensures forall s :: s in BlockMap(items) <==> exists i :: 0 <= i < |items| && items[i].at == s
    ensures forall i :: 0 <= i < |items| ==>
              items[i].at in BlockMap(items) && BlockMap(items)[items[i].at] == items[i].bytes
  {
    if items != [] {
      BlockMapOf(items[..|items| - 1]);
    }
  }

  /** Listing the map of an ascending list gives the list back. */
  lemma ItemsOfBlockMap(items: seq<Block>)
    requires AscendingBlocks(items)
    ensures Items(BlockMap(items)) == items
  {
    var m := BlockMap(items);
    var ats := Starts(items);
    BlockMapOf(items);
    forall x
      ensures x in m.Keys <==> x in ats
    {
      if x in ats {
        var i :| 0 <= i < |ats| && ats[i] == x;
        assert items[i].at == x;
      }
    }
    SortedUnique(Sorted(m.Keys), ats);
  }

  function Starts(items: seq<Block>): (ats: seq<nat>)
    ensures |ats| == |items|
    ensures forall i :: 0 <= i < |items| ==> ats[i] == items[i].at
  {
    seq(|items|, i requires 0 <= i < |items| => items[i].at)
  }

  // ---- which block decides an address --------------------------------------------------------

  /** The byte view at one address. */
  function At(m: map<nat, byte>, x: nat): (b: Option<byte>)
  {
    if x in m then Some(m[x]) else None
  }

  /** Reading after storing. */
  lemma {:induction false} WriteAt(m: map<nat, byte>, at: nat, bytes: seq<byte>, x: nat)
    ensures At(Write(m, at, bytes), x)
         == if at <= x < at + |bytes| then Some(bytes[x - at]) else At(m, x)
  {
    if bytes != [] {
      WriteAt(m, at, bytes[..|bytes| - 1], x);
    }
  }

  lemma SameView(a: map<nat, byte>, b: map<nat, byte>)
    requires forall x :: At(a, x) == At(b, x)
    ensures a == b
  {
    assert forall x :: x in a ==> At(b, x) == Some(a[x]);
    assert forall x :: x in b ==> At(a, x) == Some(b[x]);
  }

  /** The block starting at `s` holds a byte for `x`. */
  predicate Holds(blocks: map<nat, seq<byte>>, s: nat, x: nat) {
    s in blocks && s <= x < s + |blocks[s]|
  }

  /** Among the blocks holding `x`, the one with the greatest start, which is printed last. */
  ghost predicate Top(blocks: map<nat, seq<byte>>, s: nat, x: nat) {
    Holds(blocks, s, x) && forall t: nat :: Holds(blocks, t, x) ==> t <= s
  }

  lemma OverlayStep(items: seq<Block>, x: nat)
    requires items != []
    ensures At(Overlay(items), x)
         == var last := items[|items| - 1];
            if last.Covers(x) then Some(last.bytes[x - last.at]) else At(Overlay(items[..|items| - 1]), x)
  {
    var last := items[|items| - 1];
    WriteAt(Overlay(items[..|items| - 1]), last.at, last.bytes, x);
  }

  lemma OverlaySnoc(before: seq<Block>, b: Block)
    ensures Overlay(before + [b]) == Write(Overlay(before), b.at, b.bytes)
  {
    assert (before + [b])[..|before + [b]| - 1] == before;
  }

  lemma BlockMapSnoc(before: seq<Block>, b: Block)
    ensures BlockMap(before + [b]) == BlockMap(before)[b.at := b.bytes]
  {
    assert (before + [b])[..|before + [b]| - 1] == before;
  }

  lemma {:induction false} OverlayLast(items: seq<Block>, x: nat, i: nat)
    requires i < |items| && items[i].Covers(x)
    requires forall j :: i < j < |items| ==> !items[j].Covers(x)
    ensures At(Overlay(items), x) == Some(items[i].bytes[x - items[i].at])
  {
    OverlayStep(items, x);
    if i < |items| - 1 {
      OverlayLast(items[..|items| - 1], x, i);
    }
  }

  lemma {:induction false} OverlayCovers(items: seq<Block>, i: nat, x: nat)
    requires i < |items| && items[i].Covers(x)
    ensures At(Overlay(items), x).Some?
  {
    OverlayStep(items, x);
    if i < |items| - 1 {
      OverlayCovers(items[..|items| - 1], i, x);
    }
  }

  lemma {:induction false} OverlayFrom(items: seq<Block>, x: nat) returns (i: nat)
    requires At(Overlay(items), x).Some?
    ensures i < |items| && items[i].Covers(x)
  {
    i := |items| - 1;
    OverlayStep(items, x);
    if !items[i].Covers(x) {
      i := OverlayFrom(items[..|items| - 1], x);
    }
  }

  /** The byte at an address is the one in the top block holding it. */
  lemma FlattenTop(blocks: map<nat, seq<byte>>, s: nat, x: nat)
    requires Top(blocks, s, x)
    ensures At(Flatten(blocks), x) == Some(blocks[s][x - s])
  {
    hide Items, Overlay, At;
    ItemsAscend(blocks);
    var items := Items(blocks);
    var i :| 0 <= i < |items| && items[i] == Block(s, blocks[s]);
    forall j | i < j < |items|
      ensures !items[j].Covers(x)
    {
      assert items[j].Covers(x) ==> Holds(blocks, items[j].at, x);
    }
    OverlayLast(items, x, i);
  }

  lemma {:induction false} TopAbove(blocks: map<nat, seq<byte>>, s: nat, x: nat) returns (t: nat)
    requires Holds(blocks, s, x)
    ensures Top(blocks, t, x) && s <= t
    decreases x - s
  {
    t := s;
    if !Top(blocks, s, x) {
      var u: nat :| Holds(blocks, u, x) && s < u;
      t := TopAbove(blocks, u, x);
    }
  }

  /** An address is in the byte view exactly when some block holds it. */
  lemma FlattenDomain(blocks: map<nat, seq<byte>>, x: nat)
    ensures At(Flatten(blocks), x).Some? <==> exists s: nat :: Holds(blocks, s, x)
  {
    if At(Flatten(blocks), x).Some? {
      ItemsAscend(blocks);
      var i := OverlayFrom(Items(blocks), x);
      assert Holds(blocks, Items(blocks)[i].at, x);
    } else if s: nat :| Holds(blocks, s, x) {
      var t := TopAbove(blocks, s, x);
      FlattenTop(blocks, t, x);
    }
  }

  // ---- blocks stored one after the other -----------------------------------------------------

  /** The block map keeps the bytes of the `i`-th block: no later one starts at the same address. */
  predicate Survives(stored: seq<Block>, i: nat) {
    i < |stored| && forall j :: i < j < |stored| ==> stored[j].at != stored[i].at
  }

  lemma {:induction false} SurvivorIn(stored: seq<Block>, i: nat)
    requires Survives(stored, i)
    ensures stored[i].at in BlockMap(stored) && BlockMap(stored)[stored[i].at] == stored[i].bytes
  {
    if i < |stored| - 1 {
      SurvivorIn(stored[..|stored| - 1], i);
    }
  }

  lemma {:induction false} SurvivorOf(stored: seq<Block>, s: nat) returns (i: nat)
    requires s in BlockMap(stored)
    ensures Survives(stored, i) && stored[i] == Block(s, BlockMap(stored)[s])
  {
    i := |stored| - 1;
    if stored[i].at != s {
      i := SurvivorOf(stored[..i], s);
    }
  }

  /** The `i`-th block was the last to write address `x`. */
  predicate WroteLast(stored: seq<Block>, i: nat, x: nat) {
    i < |stored| && stored[i].Covers(x) && forall j :: i < j < |stored| ==> !stored[j].Covers(x)
  }

  /** Among the blocks kept, the `i`-th is the one with the greatest start that holds `x`. */
  ghost predicate PrintedLast(stored: seq<Block>, i: nat, x: nat) {
    && Survives(stored, i) && stored[i].Covers(x)
    && forall j: nat :: Survives(stored, j) && stored[j].Covers(x) ==> stored[j].at <= stored[i].at
  }

  function ByteIn(stored: seq<Block>, i: nat, x: nat): (b: Option<byte>)
  {
    if i < |stored| && stored[i].Covers(x) then Some(stored[i].bytes[x - stored[i].at]) else None
  }

  /** Where the last block to write an address is not the one printed last, the latter has the same
      byte; in particular some block that holds the address is kept. */
  ghost predicate OrderIsKeptAt(stored: seq<Block>, x: nat) {
    forall i: nat :: WroteLast(stored, i, x) ==>
      exists j: nat :: PrintedLast(stored, j, x) && ByteIn(stored, j, x) == ByteIn(stored, i, x)
  }

  ghost predicate OrderIsKept(stored: seq<Block>) {
    forall x: nat :: OrderIsKeptAt(stored, x)
  }

  lemma {:induction false} LastWriter(stored: seq<Block>, x: nat) returns (i: nat)
    requires At(Overlay(stored), x).Some?
    ensures WroteLast(stored, i, x) && At(Overlay(stored), x) == ByteIn(stored, i, x)
  {
    i := |stored| - 1;
    OverlayStep(stored, x);
    if !stored[i].Covers(x) {
      i := LastWriter(stored[..i], x);
    }
  }

  lemma PrintedLastDecides(stored: seq<Block>, i: nat, x: nat)
    requires PrintedLast(stored, i, x)
    ensures At(Flatten(BlockMap(stored)), x) == ByteIn(stored, i, x) && ByteIn(stored, i, x).Some?
  {
    hide Flatten, At;
    var blocks := BlockMap(stored);
    SurvivorIn(stored, i);
    forall t: nat | Holds(blocks, t, x)
      ensures t <= stored[i].at
    {
      var j := SurvivorOf(stored, t);
    }
    FlattenTop(blocks, stored[i].at, x);
  }

  lemma KeptBlockDecides(stored: seq<Block>, x: nat) returns (i: nat)
    requires At(Flatten(BlockMap(stored)), x).Some?
    ensures PrintedLast(stored, i, x)
    ensures At(Flatten(BlockMap(stored)), x) == ByteIn(stored, i, x)
  {
    hide Flatten, At;
    var blocks := BlockMap(stored);
    FlattenDomain(blocks, x);
    var s: nat :| Holds(blocks, s, x);
    var t := TopAbove(blocks, s, x);
    i := SurvivorOf(stored, t);
    forall j: nat | Survives(stored, j) && stored[j].Covers(x)
      ensures stored[j].at <= stored[i].at
    {
      SurvivorIn(stored, j);
      assert Holds(blocks, stored[j].at, x);
    }
    FlattenTop(blocks, t, x);
  }

  lemma SameAtExactly(stored: seq<Block>, x: nat)
    ensures At(Overlay(stored), x) == At(Flatten(BlockMap(stored)), x) <==> OrderIsKeptAt(stored, x)
  {
    hide At, Overlay, Flatten, BlockMap;
    if At(Overlay(stored), x).Some? {
      SameWhereWritten(stored, x);
    } else {
      NobodyWrote(stored, x);
    }
  }

  lemma OneLastWriter(stored: seq<Block>, i: nat, k: nat, x: nat)
    requires WroteLast(stored, i, x) && WroteLast(stored, k, x)
    ensures k == i
  {
  }

  lemma SameWhereWritten(stored: seq<Block>, x: nat)
    requires At(Overlay(stored), x).Some?
    ensures At(Overlay(stored), x) == At(Flatten(BlockMap(stored)), x) <==> OrderIsKeptAt(stored, x)
  {
    hide At, Overlay, Flatten, BlockMap, WroteLast, PrintedLast, ByteIn;
    var i := LastWriter(stored, x);
    forall k: nat | WroteLast(stored, k, x)
      ensures k == i
    {
      OneLastWriter(stored, i, k, x);
    }
    if At(Flatten(BlockMap(stored)), x).Some? {
      var j := KeptBlockDecides(stored, x);
      forall k: nat | PrintedLast(stored, k, x)
        ensures ByteIn(stored, k, x) == ByteIn(stored, j, x)
      {
        PrintedLastDecides(stored, k, x);
      }
    } else {
      forall k: nat
        ensures !PrintedLast(stored, k, x)
      {
        if PrintedLast(stored, k, x) {
          PrintedLastDecides(stored, k, x);
        }
      }
    }
  }

  lemma NobodyWrote(stored: seq<Block>, x: nat)
    requires At(Overlay(stored), x) == None
    ensures At(Flatten(BlockMap(stored)), x) == None
    ensures forall i: nat :: !WroteLast(stored, i, x)
  {
    forall i: nat
      ensures !WroteLast(stored, i, x)
    {
      if WroteLast(stored, i, x) {
        OverlayCovers(stored, i, x);
      }
    }
    if At(Flatten(BlockMap(stored)), x).Some? {
      var j := KeptBlockDecides(stored, x);
      OverlayCovers(stored, j, x);
    }
  }

  /** Storing blocks one after the other gives two views of the same image, overlaps or not, exactly
      when the order of the starts does not contradict the order of the storing. */
  lemma ViewsAgreeExactly(stored: seq<Block>)
    ensures Overlay(stored) == Flatten(BlockMap(stored)) <==> OrderIsKept(stored)
  {
    hide At, Overlay, Flatten, BlockMap, OrderIsKeptAt;
    forall x: nat
      ensures At(Overlay(stored), x) == At(Flatten(BlockMap(stored)), x) <==> OrderIsKeptAt(stored, x)
    {
      SameAtExactly(stored, x);
    }
    if OrderIsKept(stored) {
      SameView(Overlay(stored), Flatten(BlockMap(stored)));
    }
  }

  // ---- blocks that do not overlap ------------------------------------------------------------

  predicate Disjoint(blocks: map<nat, seq<byte>>) {
    forall s, t :: s in blocks && t in blocks && s < t ==> s + |blocks[s]| <= t
  }

  /** With disjoint blocks an address belongs to one block at most, which decides its byte. */
  lemma FlattenDisjoint(blocks: map<nat, seq<byte>>, s: nat, x: nat)
    requires Disjoint(blocks) && Holds(blocks, s, x)
    ensures At(Flatten(blocks), x) == Some(blocks[s][x - s])
    ensures forall t: nat :: Holds(blocks, t, x) ==> t == s
  {
    FlattenTop(blocks, s, x);
  }

  // ---- putting one set of blocks over another ------------------------------------------------

  /** At `x` nothing of the block maps' union contradicts putting the bytes of `over` on top: a
      block of `under` that is replaced is covered there, and one that is kept, and so printed after
      an earlier block of `over`, repeats that block's byte. */
  ghost predicate ConservesAt(under: map<nat, seq<byte>>, over: map<nat, seq<byte>>, x: nat) {
    forall s: nat :: Holds(under, s, x) ==>
      if s in over then exists t: nat :: Holds(over, t, x)
      else forall t: nat :: Holds(over, t, x) && t < s ==> over[t][x - t] == under[s][x - s]
  }

  ghost predicate Conserves(under: map<nat, seq<byte>>, over: map<nat, seq<byte>>) {
    forall x: nat :: ConservesAt(under, over, x)
  }

  /** Updating a disjoint block map with another updates the byte view exactly when it conserves. */
  lemma MergeExact(under: map<nat, seq<byte>>, over: map<nat, seq<byte>>)
    requires Disjoint(under) && Disjoint(over)
    ensures Flatten(under + over) == Flatten(under) + Flatten(over) <==> Conserves(under, over)
  {
    hide Flatten;
    var got, want := Flatten(under + over), Flatten(under) + Flatten(over);
    forall x: nat
      ensures At(got, x) == At(want, x) <==> ConservesAt(under, over, x)
    {
      MergeExactAt(under, over, x);
      assert At(want, x) == if At(Flatten(over), x).Some? then At(Flatten(over), x) else At(Flatten(under), x);
    }
    if Conserves(under, over) {
      SameView(got, want);
    }
  }

  lemma MergeExactAt(under: map<nat, seq<byte>>, over: map<nat, seq<byte>>, x: nat)
    requires Disjoint(under) && Disjoint(over)
    ensures At(Flatten(under + over), x)
         == (if At(Flatten(over), x).Some? then At(Flatten(over), x) else At(Flatten(under), x))
       <==> ConservesAt(under, over, x)
  {
    hide Flatten, At;
    FlattenDomain(over, x);
    FlattenDomain(under, x);
    if t: nat :| Holds(over, t, x) {
      FlattenDisjoint(over, t, x);
      if s: nat :| Holds(under, s, x) {
        FlattenDisjoint(under, s, x);
        MergeHeldByBoth(under, over, s, t, x);
      } else {
        MergeHeldByOver(under, over, t, x);
      }
    } else if s: nat :| Holds(under, s, x) {
      FlattenDisjoint(under, s, x);
      MergeHeldByUnder(under, over, s, x);
    } else {
      MergeHeldByNone(under, over, x);
    }
  }

  lemma HoldsMerged(under: map<nat, seq<byte>>, over: map<nat, seq<byte>>, s: nat, x: nat)
    ensures Holds(under + over, s, x) <==> Holds(over, s, x) || (s !in over && Holds(under, s, x))
  {
  }

  lemma MergeHeldByNone(under: map<nat, seq<byte>>, over: map<nat, seq<byte>>, x: nat)
    requires forall t: nat :: !Holds(under, t, x) && !Holds(over, t, x)
    ensures At(Flatten(under + over), x) == None
  {
    FlattenDomain(under + over, x);
    forall s: nat
      ensures !Holds(under + over, s, x)
    {
      HoldsMerged(under, over, s, x);
    }
  }

  lemma MergeHeldByUnder(under: map<nat, seq<byte>>, over: map<nat, seq<byte>>, s: nat, x: nat)
    requires Holds(under, s, x) && forall t: nat :: Holds(under, t, x) ==> t == s
    requires forall t: nat :: !Holds(over, t, x)
    ensures At(Flatten(under + over), x) == if s in over then None else Some(under[s][x - s])
  {
    hide Flatten, At;
    forall t: nat
      ensures Holds(under + over, t, x) <==> t == s && s !in over
    {
      HoldsMerged(under, over, t, x);
    }
    if s in over {
      FlattenDomain(under + over, x);
    } else {
      assert Top(under + over, s, x);
      FlattenTop(under + over, s, x);
    }
  }

  lemma MergeHeldByOver(under: map<nat, seq<byte>>, over: map<nat, seq<byte>>, t: nat, x: nat)
    requires Holds(over, t, x) && forall u: nat :: Holds(over, u, x) ==> u == t
    requires forall s: nat :: !Holds(under, s, x)
    ensures At(Flatten(under + over), x) == Some(over[t][x - t])
  {
    hide Flatten, At;
    forall u: nat
      ensures Holds(under + over, u, x) <==> u == t
    {
      HoldsMerged(under, over, u, x);
    }
    assert Top(under + over, t, x);
    FlattenTop(under + over, t, x);
  }

  /** The later of the two starts is printed last, unless the block of `under` was replaced. */
  lemma MergeHeldByBoth(under: map<nat, seq<byte>>, over: map<nat, seq<byte>>, s: nat, t: nat, x: nat)
    requires Holds(under, s, x) && forall u: nat :: Holds(under, u, x) ==> u == s
    requires Holds(over, t, x) && forall u: nat :: Holds(over, u, x) ==> u == t
    ensures At(Flatten(under + over), x)
         == Some(if s in over || s < t then over[t][x - t] else under[s][x - s])
  {
    hide Flatten, At;
    var top := if s in over || s < t then t else s;
    forall u: nat
      ensures Holds(under + over, u, x) <==> u == t || (u == s && s !in over)
    {
      HoldsMerged(under, over, u, x);
    }
    assert Top(under + over, top, x);
    FlattenTop(under + over, top, x);
  }

  // ---- storing one block ---------------------------------------------------------------------

  lemma FlattenOne(at: nat, bytes: seq<byte>)
    ensures Flatten(map[at := bytes]) == Write(map[], at, bytes)
  {
    var one := [Block(at, bytes)];
    assert one[..0] == [];
    assert BlockMap(one) == map[at := bytes];
    assert Overlay(one) == Write(Overlay(one[..0]), at, bytes) == Write(map[], at, bytes);
    ItemsOfBlockMap(one);
  }

  /** Storing one block in a disjoint block map and its bytes in the byte view. */
  lemma UpdateExact(blocks: map<nat, seq<byte>>, at: nat, bytes: seq<byte>)
    requires Disjoint(blocks)
    ensures Flatten(blocks[at := bytes]) == Write(Flatten(blocks), at, bytes)
       <==> Conserves(blocks, map[at := bytes])
  {
    hide Flatten, At;
    var over, view := map[at := bytes], Flatten(blocks);
    assert blocks[at := bytes] == blocks + over;
    FlattenOne(at, bytes);
    forall x
      ensures At(view + Write(map[], at, bytes), x) == At(Write(view, at, bytes), x)
    {
      WriteOver(view, at, bytes, x);
    }
    SameView(view + Write(map[], at, bytes), Write(view, at, bytes));
    MergeExact(blocks, over);
  }

  lemma WriteOver(view: map<nat, byte>, at: nat, bytes: seq<byte>, x: nat)
    ensures At(view + Write(map[], at, bytes), x) == At(Write(view, at, bytes), x)
  {
    WriteAt(map[], at, bytes, x);
    WriteAt(view, at, bytes, x);
  }

  lemma HoldsAfterUpdate(blocks: map<nat, seq<byte>>, at: nat, bytes: seq<byte>, s: nat, x: nat)
    requires Holds(blocks[at := bytes], s, x)
    ensures if s == at then x < at + |bytes| else Holds(blocks, s, x)
  {
  }

  lemma UpdateLosesTail(blocks: map<nat, seq<byte>>, at: nat, bytes: seq<byte>)
    requires Disjoint(blocks) && at in blocks && |blocks[at]| > |bytes|
    ensures At(Flatten(blocks), at + |bytes|).Some?
    ensures At(Flatten(blocks[at := bytes]), at + |bytes|) == None
  {
    hide At, Flatten;
    var x, after := at + |bytes|, blocks[at := bytes];
    assert Holds(blocks, at, x);
    FlattenDisjoint(blocks, at, x);
    FlattenDomain(after, x);
    forall s: nat
      ensures !Holds(after, s, x)
    {
      if Holds(after, s, x) {
        HoldsAfterUpdate(blocks, at, bytes, s, x);
      }
    }
  }
}
