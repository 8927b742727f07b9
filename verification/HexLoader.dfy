/** Loading: the running extended-address base, the skipping of bad lines, and both views. */
module HexLoader {
  import opened Wrappers
  import opened HexRecord
  import opened MemoryImage
  import HexText

  /** The three attributes of a HEX file object. */
  datatype Contents = Contents(data: map<nat, byte>, blocks: map<nat, seq<byte>>, start: nat)

  const EMPTY := Contents(map[], map[], 0)

  /** Contents so far, the extended address in force, and whether an End of File was seen. */
  datatype Loading = Loading(file: Contents, base: nat, done: bool)

  /** `int.from_bytes(bs, 'big')`, for any number of octets. */
  function BigEndian(bs: seq<byte>): (n: nat)
  {
    if bs == [] then 0 else 256 * BigEndian(bs[..|bs| - 1]) + bs[|bs| - 1]
  }

  function StoreRecord(file: Contents, at: nat, bytes: seq<byte>): (r: Contents)
  {
    if bytes == [] then file
    else file.(data := Write(file.data, at, bytes), blocks := file.blocks[at := bytes])
  }

  function Apply(l: Loading, r: Record): (l': Loading)
  {
    if l.done then l
    else if r.kind == DATA then l.(file := StoreRecord(l.file, l.base + r.address, r.data))
    else if r.kind == END_OF_FILE then l.(done := true)
    else if r.kind == EXTENDED_SEGMENT then l.(base := BigEndian(r.data) * 16)
    else if r.kind == EXTENDED_LINEAR then l.(base := BigEndian(r.data) * 0x1_0000)
    else if r.kind == START_LINEAR then l.(file := l.file.(start := BigEndian(r.data)))
    else l
  }

  /** What the type octet of a record decides: 0 data, 1 End of File, 2 extended segment address, 4
      extended linear address, 5 start linear address; any other type is ignored. */
  lemma KindsDecide(l: Loading, r: Record)
    requires !l.done
    ensures r.kind == 0 ==> Apply(l, r) == l.(file := StoreRecord(l.file, l.base + r.address, r.data))
    ensures r.kind == 1 ==> Apply(l, r) == l.(done := true)
    ensures r.kind == 2 ==> Apply(l, r) == l.(base := 0x10 * BigEndian(r.data))
    ensures r.kind == 4 ==> Apply(l, r) == l.(base := 0x1_0000 * BigEndian(r.data))
    ensures r.kind == 5 ==> Apply(l, r) == l.(file := l.file.(start := BigEndian(r.data)))
    ensures r.kind == 3 || r.kind > 5 ==> Apply(l, r) == l
  {
  }

  /** The first octet is the highest. */
  lemma BigEndianFour(a: byte, b: byte, c: byte, d: byte)
    ensures BigEndian([a, b]) == 0x100 * a + b
    ensures BigEndian([a, b, c, d]) == 0x100_0000 * a + 0x1_0000 * b + 0x100 * c + d
  {
    var four: seq<byte>, three: seq<byte>, two: seq<byte>, one: seq<byte> := [a, b, c, d], [a, b, c], [a, b], [a];
    assert four[..3] == three && three[..2] == two && two[..1] == one && one[..0] == [];
    assert BigEndian(one) == a && BigEndian(two) == 0x100 * a + b;
    assert BigEndian(three) == 0x1_0000 * a + 0x100 * b + c;
  }

  function ApplyAll(l: Loading, rs: seq<Record>): (l': Loading)
  {
    if rs == [] then l else Apply(ApplyAll(l, rs[..|rs| - 1]), rs[|rs| - 1])
  }

  const FRESH := Loading(EMPTY, 0, false)

  /** The block that a record stores, if it stores one. */
  function Store(l: Loading, r: Record): (stored: seq<Block>)
  {
    if !l.done && r.kind == DATA && r.data != [] then [Block(l.base + r.address, r.data)] else []
  }

  /** The blocks that the records store one after the other. */
  function Stores(l: Loading, rs: seq<Record>): (stored: seq<Block>)
  {
    if rs == [] then []
    else Stores(l, rs[..|rs| - 1]) + Store(ApplyAll(l, rs[..|rs| - 1]), rs[|rs| - 1])
  }

  /** The records of the lines that parse; the other lines are skipped. */
  function Records(lines: seq<string>): (rs: seq<Record>)
  {
    if lines == [] then []
    else
      Records(lines[..|lines| - 1])
      + match FromLine(lines[|lines| - 1]) { case Some(r) => [r] case None => [] }
  }

  /** What loading a file's text into an object leaves there. */
  function LoadText(file: Contents, text: string): (r: Contents)
  {
    ApplyAll(Loading(file, 0, false), Records(HexText.ReadLines(text))).file
  }

  lemma {:induction false} RecordsLower(lines: seq<string>)
    ensures Records(HexText.AllLower(lines)) == Records(lines)
  {
    if lines != [] {
      hide FromLine;
      var n := |lines| - 1;
      RecordsLower(lines[..n]);
      FromLineLower(lines[n]);
      assert HexText.AllLower(lines)[..n] == HexText.AllLower(lines[..n]);
    }
  }

  /** A HEX file loads the same in lower case. */
  lemma LoadLower(file: Contents, text: string)
    ensures LoadText(file, HexText.ToLower(text)) == LoadText(file, text)
  {
    HexText.SplitLower(text, 0);
    RecordsLower(HexText.ReadLines(text));
  }

  lemma {:induction false} ApplyAllAppend(l: Loading, a: seq<Record>, b: seq<Record>)
    ensures ApplyAll(l, a + b) == ApplyAll(ApplyAll(l, a), b)
  {
    if b == [] {
      assert a + b == a;
    } else {
      assert (a + b)[..|a + b| - 1] == a + b[..|b| - 1];
      ApplyAllAppend(l, a, b[..|b| - 1]);
    }
  }

  lemma {:induction false} StoresAppend(l: Loading, a: seq<Record>, b: seq<Record>)
    ensures Stores(l, a + b) == Stores(l, a) + Stores(ApplyAll(l, a), b)
  {
    if b == [] {
      assert a + b == a;
    } else {
      hide Store, ApplyAll;
      var init := b[..|b| - 1];
      assert (a + b)[..|a + b| - 1] == a + init;
      StoresAppend(l, a, init);
      ApplyAllAppend(l, a, init);
      Assoc(Stores(l, a), Stores(ApplyAll(l, a), init), Store(ApplyAll(ApplyAll(l, a), init), b[|b| - 1]));
    }
  }

  lemma StoredNext(l: Loading, r: Record, stored: seq<Block>)
    requires l.file.data == Overlay(stored) && l.file.blocks == BlockMap(stored)
    ensures Apply(l, r).file.data == Overlay(stored + Store(l, r))
    ensures Apply(l, r).file.blocks == BlockMap(stored + Store(l, r))
  {
    if Store(l, r) == [] {
      assert stored + [] == stored;
    } else {
      hide Overlay, BlockMap, Write;
      OverlaySnoc(stored, Block(l.base + r.address, r.data));
      BlockMapSnoc(stored, Block(l.base + r.address, r.data));
    }
  }

  /** Both views after loading, in terms of those blocks. */
  lemma {:induction false} LoadedViews(rs: seq<Record>)
    ensures ApplyAll(FRESH, rs).file.data == Overlay(Stores(FRESH, rs))
    ensures ApplyAll(FRESH, rs).file.blocks == BlockMap(Stores(FRESH, rs))
  {
    if rs != [] {
      hide Store, Apply;
      var init := rs[..|rs| - 1];
      LoadedViews(init);
      StoredNext(ApplyAll(FRESH, init), rs[|rs| - 1], Stores(FRESH, init));
    }
  }

  /** Loading a file leaves two views of the same image exactly when its data records, overlapping or
      not, keep the order of the starts. */
  lemma LoadAgreesExactly(rs: seq<Record>)
    ensures ApplyAll(FRESH, rs).file.data == Flatten(ApplyAll(FRESH, rs).file.blocks)
       <==> OrderIsKept(Stores(FRESH, rs))
  {
    hide Flatten, OrderIsKept, Stores, ApplyAll;
    LoadedViews(rs);
    ViewsAgreeExactly(Stores(FRESH, rs));
  }

  lemma StoredTwo(r: Record, r': Record)
    requires r.kind == r'.kind == DATA && r.data != [] && r'.data != []
    ensures Stores(FRESH, [r, r']) == [Block(r.address, r.data), Block(r'.address, r'.data)]
  {
    assert [r, r'][..1] == [r] && [r][..0] == [];
    assert Stores(FRESH, [r]) == [Block(r.address, r.data)];
    assert ApplyAll(FRESH, [r]) == Apply(FRESH, r);
  }

  lemma FirstIsPrintedLast(a: Block, b: Block, j: nat, x: nat)
    requires b.at < a.at && a.Covers(x) && b.Covers(x)
    ensures WroteLast([a, b], 1, x) && (PrintedLast([a, b], j, x) ==> j == 0)
  {
    assert Survives([a, b], 0) && [a, b][0].Covers(x);
  }

  lemma LaterLowerLoses(a: Block, b: Block, x: nat)
    requires b.at < a.at && a.Covers(x) && b.Covers(x) && a.bytes[x - a.at] != b.bytes[x - b.at]
    ensures !OrderIsKept([a, b])
  {
    hide WroteLast, PrintedLast;
    FirstIsPrintedLast(a, b, 0, x);
    forall j: nat | PrintedLast([a, b], j, x)
      ensures j == 0
    {
      FirstIsPrintedLast(a, b, j, x);
    }
    assert !OrderIsKeptAt([a, b], x);
  }

  /** One byte at address 1, then two bytes from address 0: the byte view ends with the second record's
      byte at address 1, the blocks printed by address with the first one's. */
  lemma OverlapExample()
    ensures var l := ApplyAll(FRESH, [Record(1, 1, DATA, [5]), Record(2, 0, DATA, [7, 8])]);
            l.file.data != Flatten(l.file.blocks)
  {
    hide ApplyAll, Stores, Flatten, OrderIsKept;
    var first, second := Record(1, 1, DATA, [5]), Record(2, 0, DATA, [7, 8]);
    StoredTwo(first, second);
    LaterLowerLoses(Block(1, [5]), Block(0, [7, 8]), 1);
    LoadAgreesExactly([first, second]);
  }

  lemma {:induction false} RecordsAppend(a: seq<string>, b: seq<string>)
    ensures Records(a + b) == Records(a) + Records(b)
  {
    if b == [] {
      assert a + b == a;
    } else {
      assert (a + b)[..|a + b| - 1] == a + b[..|b| - 1];
      RecordsAppend(a, b[..|b| - 1]);
    }
  }

  /** Nothing after an End of File record is looked at. */
  lemma {:induction false} ApplyAllDone(l: Loading, rs: seq<Record>)
    requires l.done
    ensures ApplyAll(l, rs) == l
  {
    if rs != [] {
      ApplyAllDone(l, rs[..|rs| - 1]);
    }
  }

  lemma {:induction false} TrimRightKeepsHead(s: string)
    requires s == "" || !HexText.IsSpace(s[0])
    ensures HexText.TrimRight(s) == "" || !HexText.IsSpace(HexText.TrimRight(s)[0])
  {
    if s != "" && HexText.IsSpace(s[|s| - 1]) {
      TrimRightKeepsHead(s[..|s| - 1]);
    }
  }

  /** The loader strips a line that the parser strips again. */
  lemma StripTwice(s: string)
    ensures HexText.Strip(HexText.Strip(s)) == HexText.Strip(s)
  {
    TrimRightKeepsHead(HexText.TrimLeft(s));
  }

  /** The octets of a record land at consecutive addresses from the base in force, whatever the
      16-bit record address: nothing wraps at the end of a 64 KiB page. */
  lemma ApplyDataAt(l: Loading, r: Record, x: nat)
    requires !l.done && r.kind == DATA
    ensures At(Apply(l, r).file.data, x)
         == if l.base + r.address <= x < l.base + r.address + |r.data|
            then Some(r.data[x - l.base - r.address]) else At(l.file.data, x)
  {
    WriteAt(l.file.data, l.base + r.address, r.data, x);
  }

  // ---- the two views after loading -----------------------------------------------------------

  /** Both views are of the same image, held in disjoint non-empty blocks. */
  predicate Coherent(data: map<nat, byte>, blocks: map<nat, seq<byte>>) {
    && data == Flatten(blocks)
    && Disjoint(blocks)
    && forall s :: s in blocks ==> blocks[s] != []
  }

  /** Every data record met while loading `rs` keeps clear of the blocks stored before it. */
  ghost predicate RecordsKeepClear(l: Loading, rs: seq<Record>) {
    forall i :: 0 <= i < |rs| && rs[i].kind == DATA ==>
      var l' := ApplyAll(l, rs[..i]);
      KeepsClear(l'.file.blocks, l'.base + rs[i].address, rs[i].data)
  }

  predicate KeepsClear(blocks: map<nat, seq<byte>>, at: nat, bytes: seq<byte>) {
    forall s :: s in blocks ==> s + |blocks[s]| <= at || at + |bytes| <= s
  }

  lemma ClearConserves(blocks: map<nat, seq<byte>>, at: nat, bytes: seq<byte>)
    requires KeepsClear(blocks, at, bytes) && bytes != []
    ensures Conserves(blocks, map[at := bytes])
  {
    assert forall s: nat, x: nat :: Holds(blocks, s, x) ==> !Holds(map[at := bytes], at, x);
  }

  lemma ClearStaysDisjoint(blocks: map<nat, seq<byte>>, at: nat, bytes: seq<byte>)
    requires Disjoint(blocks) && KeepsClear(blocks, at, bytes)
    ensures Disjoint(blocks[at := bytes])
  {
  }

  lemma StoreKeepsCoherent(data: map<nat, byte>, blocks: map<nat, seq<byte>>, at: nat, bytes: seq<byte>)
    requires Coherent(data, blocks) && KeepsClear(blocks, at, bytes) && bytes != []
    ensures Coherent(Write(data, at, bytes), blocks[at := bytes])
  {
    hide Flatten;
    ClearConserves(blocks, at, bytes);
    ClearStaysDisjoint(blocks, at, bytes);
    UpdateExact(blocks, at, bytes);
  }

  lemma SameViewsCoherent(data: map<nat, byte>, blocks: map<nat, seq<byte>>,
                          data': map<nat, byte>, blocks': map<nat, seq<byte>>)
    requires Coherent(data, blocks) && data' == data && blocks' == blocks
    ensures Coherent(data', blocks')
  {
  }

  lemma ApplyStores(l: Loading, r: Record)
    requires !l.done && r.kind == DATA && r.data != []
    ensures Apply(l, r).file.data == Write(l.file.data, l.base + r.address, r.data)
    ensures Apply(l, r).file.blocks == l.file.blocks[l.base + r.address := r.data]
  {
  }

  lemma ApplyOtherSame(l: Loading, r: Record)
    requires l.done || r.kind != DATA || r.data == []
    ensures Apply(l, r).file.data == l.file.data
    ensures Apply(l, r).file.blocks == l.file.blocks
  {
  }

  /** Loading data records that never overlap leaves two views that agree. */
  lemma {:induction false} LoadIsCoherent(l: Loading, rs: seq<Record>)
    requires Coherent(l.file.data, l.file.blocks) && RecordsKeepClear(l, rs)
    ensures Coherent(ApplyAll(l, rs).file.data, ApplyAll(l, rs).file.blocks)
  {
    if rs != [] {
      var init, r := rs[..|rs| - 1], rs[|rs| - 1];
      assert forall i :: 0 <= i <= |init| ==> init[..i] == rs[..i];
      LoadIsCoherent(l, init);
      var l' := ApplyAll(l, init);
      if !l'.done && r.kind == DATA && r.data != [] {
        assert KeepsClear(l'.file.blocks, l'.base + r.address, r.data);
        var at := l'.base + r.address;
        StoreKeepsCoherent(l'.file.data, l'.file.blocks, at, r.data);
        ApplyStores(l', r);
        SameViewsCoherent(Write(l'.file.data, at, r.data), l'.file.blocks[at := r.data],
                          Apply(l', r).file.data, Apply(l', r).file.blocks);
      } else {
        ApplyOtherSame(l', r);
      }
    }
  }
}
