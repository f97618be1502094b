/** Whole blobs: header, memory reservation block, structure block and strings block
    (Devicetree Specification, sections 5.2 and 5.3). */
module FdtBlob {
  import opened Options
  import opened FdtTree
  import opened FdtWrite
  import opened FdtRead
  import opened FdtRoundTrip

  datatype Reserve = Reserve(address: Double, size: Double)

  datatype BootInfo = BootInfo(reserve: seq<Reserve>, dt: Node, bootCpuid: Word)

  const MAGIC: Word := 0xd00dfeed

  /** A row of version_table. */
  datatype VersionInfo = VersionInfo(
    version: Word, lastComp: Word, hdrSize: nat, layout: Layout, bootCpuid: bool, strTabSize: bool, structSize: bool)

  const OLD := Layout(true, true, true)
  const NEW := Layout(false, false, false)

  function VersionTable(version: int): Option<VersionInfo> {
    if version == 1 then Some(VersionInfo(1, 1, 28, OLD, false, false, false))
    else if version == 2 then Some(VersionInfo(2, 1, 32, OLD, true, false, false))
    else if version == 3 then Some(VersionInfo(3, 1, 36, OLD, true, true, false))
    else if version == 16 then Some(VersionInfo(16, 16, 36, NEW, true, true, false))
    else if version == 17 then Some(VersionInfo(17, 16, 40, NEW, true, true, true))
    else None
  }

  // ---------------------------------------------------------------- writing

  /** flatten_reserve_list: the entries, then the extra empty slots asked for. */
  function ReserveBytes(reserve: seq<Reserve>): (b: Bytes)
    ensures |b| == 16 * |reserve|
  {
    if reserve == [] then []
    else Word64(reserve[0].address) + Word64(reserve[0].size) + ReserveBytes(reserve[1..])
  }

  /** Where the blocks of a blob begin, and its size without padding. */
  datatype Offsets = Offsets(reserve: nat, dt: nat, strings: nat, total: nat)

  function LayOut(vi: VersionInfo, reserveSize: nat, dtSize: nat, strSize: nat): Offsets {
    var r := vi.hdrSize + Pad(vi.hdrSize, 8);
    var d := r + reserveSize + 16;
    Offsets(r, d, d + dtSize, d + dtSize + strSize)
  }

  const UNSET: Word := 0xffff_ffff

  function CellValue(n: nat): Word {
    n % 0x1_0000_0000
  }

  /** make_fdt_header: the ten fields. */
  function HeaderWords(vi: VersionInfo, o: Offsets, totalSize: nat, dtSize: nat, strSize: nat, cpu: Word): (ws: seq<Word>)
    ensures |ws| == 10
  {
    [ MAGIC, CellValue(totalSize), CellValue(o.dt), CellValue(o.strings), CellValue(o.reserve), vi.version, vi.lastComp,
      if vi.bootCpuid then cpu else UNSET,
      if vi.strTabSize then CellValue(strSize) else UNSET,
      if vi.structSize then CellValue(dtSize) else UNSET ]
  }

  function WordsBytes(ws: seq<Word>): (b: Bytes)
    ensures |b| == 4 * |ws|
  {
    if ws == [] then [] else Word32(ws[0]) + WordsBytes(ws[1..])
  }

  /** -S and -p: the padding asked for; nothing when the blob is already larger. */
  function PadLength(total: nat, minsize: nat, padsize: nat): (n: nat)
    ensures padsize > 0 ==> n == padsize
    ensures padsize == 0 && minsize > 0 ==> total + n >= minsize
  {
    if padsize > 0 then padsize else if minsize > total then minsize - total else 0
  }

  /** dt_to_blob. */
  function WriteBlob(bi: BootInfo, version: int, reservenum: nat, minsize: nat, padsize: nat): Option<Bytes> {
    var vi := VersionTable(version);
    if vi.None? then None
    else
      var (tree, strs) := NodeBytes(bi.dt, [], 0, [], vi.value.layout);
      var dt := tree + Word32(END);
      var reserve := ReserveBytes(bi.reserve) + Zeros(16 * reservenum);
      var o := LayOut(vi.value, |reserve|, |dt|, |strs|);
      var padlen := PadLength(o.total, minsize, padsize);
      var fields := HeaderWords(vi.value, o, o.total + padlen, |dt|, |strs|, bi.bootCpuid);
      var header := WordsBytes(fields[..vi.value.hdrSize / 4]);
      Some(header + Zeros(Pad(vi.value.hdrSize, 8)) + reserve + Zeros(16) + dt + strs + Zeros(padlen))
  }

  // ---------------------------------------------------------------- reading

  /** Header field number k. */
  function Field(blob: Bytes, k: nat): Word {
    if 4 * k + 4 <= |blob| then FromWord32(blob[4 * k..4 * k + 4]) else 0
  }

  /** flat_read_mem_reserve: up to the first entry of size zero. */
  function ReadReserve(blob: Bytes, p: nat): Option<seq<Reserve>>
    decreases |blob| - p
  {
    if p + 16 > |blob| then None
    else
      var re := Reserve(FromWord64(blob[p..p + 8]), FromWord64(blob[p + 8..p + 16]));
      if re.size == 0 then Some([])
      else
        var rest := ReadReserve(blob, p + 16);
        if rest.None? then None else Some([re] + rest.value)
  }

  /** dt_from_blob on the bytes of a file: the header is looked at first for the size, and the blob is
      that much of the file. */
  function ReadBlob(file: Bytes): Option<BootInfo> {
    if |file| < 8 || Field(file, 0) != MAGIC || Field(file, 1) < 28 || |file| < Field(file, 1) then None
    else ReadParts(file[..Field(file, 1)])
  }

  function ReadParts(blob: Bytes): Option<BootInfo> {
    var total := |blob|;
    var offDt, offStr, offReserve, version := Field(blob, 2), Field(blob, 3), Field(blob, 4), Field(blob, 5);
    if offReserve >= total || offDt >= total || offStr > total then None
    else if version >= 3 && offStr + Field(blob, 8) > total then None
    else if version >= 17 && offDt + Field(blob, 9) > total then None
    else
      var strs := blob[offStr..if version >= 3 then offStr + Field(blob, 8) else total];
      var f := blob[offDt..];
      var layout := if version < 16 then OLD else NEW;
      var reserve := ReadReserve(blob, offReserve);
      var begin := ReadWord(f, 0);
      if reserve.None? || begin.None? || begin.value.0 != BEGIN_NODE then None
      else
        var tree := ReadNode(f, 4, strs, [], layout);
        if tree.None? then None
        else
          var end := ReadWord(f, tree.value.1);
          if end.None? || end.value.0 != END then None
          else Some(BootInfo(reserve.value, tree.value.0, Field(blob, 7)))
  }

  // ---------------------------------------------------------------- round trip

  /** The entries before the first one of size zero. */
  function BeforeEmpty(reserve: seq<Reserve>): seq<Reserve> {
    if reserve == [] || reserve[0].size == 0 then [] else [reserve[0]] + BeforeEmpty(reserve[1..])
  }

  lemma {:induction false} AllReserved(reserve: seq<Reserve>)
    ensures BeforeEmpty(reserve) == reserve <==> forall k :: 0 <= k < |reserve| ==> reserve[k].size != 0
  {
    if reserve != [] {
      AllReserved(reserve[1..]);
      if reserve[0].size != 0 {
        assert forall k :: 0 < k < |reserve| ==> reserve[k] == reserve[1..][k - 1];
        assert forall k :: 0 <= k < |reserve[1..]| ==> reserve[1..][k] == reserve[k + 1];
      }
    }
  }

  lemma {:induction false} ReserveStands(blob: Bytes, p: nat, reserve: seq<Reserve>)
    requires Stands(blob, p, ReserveBytes(reserve) + Zeros(16))
    ensures ReadReserve(blob, p) == Some(BeforeEmpty(reserve))
    decreases |reserve|
  {
    hide FromWord64, Word64;
    if reserve == [] {
      assert Zeros(16) == Word64(0) + Word64(0) by { ZeroWords(); }
      StandsSplit(blob, p, ReserveBytes(reserve), Zeros(16));
      StandsSplit(blob, p, Word64(0), Word64(0));
      Word64Back(0);
    } else {
      var re := reserve[0];
      var rest := ReserveBytes(reserve[1..]) + Zeros(16);
      assert ReserveBytes(reserve) + Zeros(16) == Word64(re.address) + (Word64(re.size) + rest);
      StandsSplit(blob, p, Word64(re.address), Word64(re.size) + rest);
      StandsSplit(blob, p + 8, Word64(re.size), rest);
      Word64Back(re.address);
      Word64Back(re.size);
      ReserveStands(blob, p + 16, reserve[1..]);
    }
  }

  lemma ZeroWords()
    ensures Word64(0) + Word64(0) == Zeros(16)
  {
  }

  lemma {:induction false} FieldsStand(blob: Bytes, k: nat, ws: seq<Word>)
    requires Stands(blob, 4 * k, WordsBytes(ws))
    ensures forall j :: 0 <= j < |ws| ==> Field(blob, k + j) == ws[j]
    decreases |ws|
  {
    if ws != [] {
      StandsSplit(blob, 4 * k, Word32(ws[0]), WordsBytes(ws[1..]));
      Word32Back(ws[0]);
      FieldsStand(blob, k + 1, ws[1..]);
      forall j | 0 <= j < |ws|
        ensures Field(blob, k + j) == ws[j]
      {
        if j > 0 {
          assert ws[j] == ws[1..][j - 1];
          assert Field(blob, k + 1 + (j - 1)) == ws[1..][j - 1];
        }
      }
    }
  }

  /** The header of a blob is readable field by field as far as its version goes. */
  lemma HeaderStands(blob: Bytes, vi: VersionInfo, o: Offsets, totalSize: nat, dtSize: nat, strSize: nat, cpu: Word)
    requires VersionTable(vi.version) == Some(vi)
    requires totalSize < 0x8000_0000 && o.dt <= totalSize && o.strings <= totalSize && o.reserve <= totalSize
    requires dtSize <= totalSize && strSize <= totalSize
    requires Stands(blob, 0, WordsBytes(HeaderWords(vi, o, totalSize, dtSize, strSize, cpu)[..vi.hdrSize / 4]))
    ensures Field(blob, 0) == MAGIC && Field(blob, 1) == totalSize
    ensures Field(blob, 2) == o.dt && Field(blob, 3) == o.strings && Field(blob, 4) == o.reserve
    ensures Field(blob, 5) == vi.version
    ensures vi.version >= 2 ==> Field(blob, 7) == cpu
    ensures vi.version >= 3 ==> Field(blob, 8) == strSize
    ensures vi.version >= 17 ==> Field(blob, 9) == dtSize
  {
    hide WordsBytes, Field;
    var ws := HeaderWords(vi, o, totalSize, dtSize, strSize, cpu);
    FieldsStand(blob, 0, ws[..vi.hdrSize / 4]);
    forall j | 0 <= j < vi.hdrSize / 4
      ensures Field(blob, j) == ws[j]
    {
      assert Field(blob, 0 + j) == ws[..vi.hdrSize / 4][j];
    }
  }

  /** Bytes that stand in a blob stand in the part of it that begins at an earlier offset. */
  lemma StandsShift(blob: Bytes, p: nat, q: nat, s: Bytes)
    requires Stands(blob, p + q, s)
    ensures p <= |blob| && Stands(blob[p..], q, s)
  {
    assert blob[p..][q..q + |s|] == blob[p + q..p + q + |s|];
  }

  lemma SixBlocks(a: Bytes, b: Bytes, c: Bytes, z: Bytes, d: Bytes, e: Bytes, f: Bytes)
    ensures a + b + c + z + d + e + f == a + (b + ((c + z) + (d + (e + f))))
  {
  }

  lemma StandsWhole(blob: Bytes)
    ensures Stands(blob, 0, blob)
  {
  }

  /** The blocks of a blob, each at the offset its header gives. */
  lemma BlocksStand(header: Bytes, pad: Bytes, reserve: Bytes, dt: Bytes, strs: Bytes, tail: Bytes)
    returns (blob: Bytes)
    ensures blob == header + pad + reserve + Zeros(16) + dt + strs + tail
    ensures var r := |header| + |pad|;
      var d := r + |reserve| + 16;
      && Stands(blob, 0, header) && Stands(blob, r, reserve + Zeros(16))
      && Stands(blob, |header|, pad) && Stands(blob, d, dt) && Stands(blob, d + |dt|, strs)
      && Stands(blob, d + |dt| + |strs|, tail)
      && |blob| == d + |dt| + |strs| + |tail|
  {
    hide Zeros;
    blob := header + pad + reserve + Zeros(16) + dt + strs + tail;
    var z := Zeros(16);
    SixBlocks(header, pad, reserve, z, dt, strs, tail);
    StandsWhole(blob);
    hide Stands;
    StandsSplit(blob, 0, header, pad + ((reserve + z) + (dt + (strs + tail))));
    StandsSplit(blob, |header|, pad, (reserve + z) + (dt + (strs + tail)));
    StandsSplit(blob, |header| + |pad|, reserve + z, dt + (strs + tail));
    StandsSplit(blob, |header| + |pad| + |reserve| + 16, dt, strs + tail);
    StandsSplit(blob, |header| + |pad| + |reserve| + 16 + |dt|, strs, tail);
  }

  /** What comes back from a blob: the live tree in canonical form, the reservations before the first
      empty one, and the boot CPU where the version stores it. */
  predicate ComesBack(bi: BootInfo, back: BootInfo, vi: VersionInfo) {
    && back.dt == Canon(bi.dt, vi.layout)
    && back.reserve == BeforeEmpty(bi.reserve)
    && (vi.version >= 2 ==> back.bootCpuid == bi.bootCpuid)
  }

  lemma ReserveBlock(blob: Bytes, p: nat, reserve: seq<Reserve>, extra: nat)
    requires Stands(blob, p, ReserveBytes(reserve) + Zeros(16 * extra) + Zeros(16))
    ensures ReadReserve(blob, p) == Some(BeforeEmpty(reserve))
  {
    hide ReadReserve, ReserveBytes;
    var more := Zeros(16 * extra);
    assert ReserveBytes(reserve) + Zeros(16 * extra) + Zeros(16) == (ReserveBytes(reserve) + Zeros(16)) + more;
    StandsSplit(blob, p, ReserveBytes(reserve) + Zeros(16), more);
    ReserveStands(blob, p, reserve);
  }

  /** The structure block read from its offset. */
  lemma TreeBlock(blob: Bytes, d: nat, strs: Bytes, later: Bytes, dt: Node, layout: Layout)
    requires !dt.deleted && Good(dt, [], layout)
    requires var (tree, strs') := NodeBytes(dt, [], 0, [], layout);
      Stands(blob, d, tree + Word32(END)) && strs' <= later
    requires |later| < 0x8000_0000
    ensures d <= |blob|
    ensures var (tree, strs') := NodeBytes(dt, [], 0, [], layout);
      && ReadWord(blob[d..], 0) == Some((BEGIN_NODE, 4))
      && ReadNode(blob[d..], 4, later, [], layout) == Some((Canon(dt, layout), |tree|))
      && ReadWord(blob[d..], |tree|) == Some((END, |tree| + 4))
  {
    hide ReadWord, ReadNode, NodeBytes, Good, Canon, Word32;
    var tree := NodeBytes(dt, [], 0, [], layout).0;
    StandsShift(blob, d, 0, tree + Word32(END));
    StandsSplit(blob[d..], 0, tree, Word32(END));
    NodeStands(blob[d..], 0, [], later, dt, [], layout);
    WordStands(blob[d..], |tree|, END);
  }

  /** dt_from_blob on a blob whose header is consistent. */
  lemma ReadsAs(
      blob: Bytes, vi: VersionInfo, o: Offsets, strSize: nat, treeSize: nat, later: Bytes, reserve: seq<Reserve>, dt: Node)
    requires VersionTable(vi.version) == Some(vi) && 28 <= |blob| < 0x8000_0000
    requires Field(blob, 0) == MAGIC && Field(blob, 1) == |blob| && Field(blob, 5) == vi.version
    requires Field(blob, 2) == o.dt && Field(blob, 3) == o.strings && Field(blob, 4) == o.reserve
    requires vi.version >= 3 ==> Field(blob, 8) == strSize
    requires vi.version >= 17 ==> Field(blob, 9) == treeSize + 4
    requires o.reserve < |blob| && o.dt + treeSize + 4 <= |blob| && o.strings + strSize <= |blob|
    requires later == blob[o.strings..if vi.version >= 3 then o.strings + strSize else |blob|]
    requires ReadReserve(blob, o.reserve) == Some(reserve)
    requires ReadWord(blob[o.dt..], 0) == Some((BEGIN_NODE, 4))
    requires ReadNode(blob[o.dt..], 4, later, [], vi.layout) == Some((dt, treeSize))
    requires ReadWord(blob[o.dt..], treeSize) == Some((END, treeSize + 4))
    ensures ReadBlob(blob) == Some(BootInfo(reserve, dt, Field(blob, 7)))
  {
    hide ReadWord, ReadNode, ReadReserve, Field;
    assert blob[..|blob|] == blob;
  }

  /** Reading a blob back: for every version, every padding and every number of extra slots. */
  lemma BlobComesBack(bi: BootInfo, version: int, reservenum: nat, minsize: nat, padsize: nat)
    requires var vi := VersionTable(version); vi.Some? ==> Good(bi.dt, [], vi.value.layout)
    requires !bi.dt.deleted
    requires var b := WriteBlob(bi, version, reservenum, minsize, padsize); b.Some? ==> |b.value| < 0x8000_0000
    ensures var b := WriteBlob(bi, version, reservenum, minsize, padsize);
      match VersionTable(version)
      case None => b.None?
      case Some(vi) => b.Some? && ReadBlob(b.value).Some? && ComesBack(bi, ReadBlob(b.value).value, vi)
  {
    hide ReadBlob, WriteBlob, ComesBack, Good, Field, Canon, BeforeEmpty, ReadReserve, ReadNode, ReadWord, Stands;
    var v := VersionTable(version);
    if v.Some? {
      var blob, o, strSize, treeSize, later := BlobIsConsistent(bi, version, reservenum, minsize, padsize);
      ReadsAs(blob, v.value, o, strSize, treeSize, later, BeforeEmpty(bi.reserve), Canon(bi.dt, v.value.layout));
      BackIs(bi, BootInfo(BeforeEmpty(bi.reserve), Canon(bi.dt, v.value.layout), Field(blob, 7)), v.value);
    } else {
      UnknownVersion(bi, version, reservenum, minsize, padsize);
    }
  }

  lemma UnknownVersion(bi: BootInfo, version: int, reservenum: nat, minsize: nat, padsize: nat)
    ensures WriteBlob(bi, version, reservenum, minsize, padsize).None? <==> VersionTable(version).None?
  {
  }

  lemma BackIs(bi: BootInfo, back: BootInfo, vi: VersionInfo)
    requires back.reserve == BeforeEmpty(bi.reserve) && back.dt == Canon(bi.dt, vi.layout)
    requires vi.version >= 2 ==> back.bootCpuid == bi.bootCpuid
    ensures ComesBack(bi, back, vi)
  {
  }

  /** The header, the blocks and the strings of a written blob fit together. */
  lemma BlobIsConsistent(bi: BootInfo, version: int, reservenum: nat, minsize: nat, padsize: nat)
    returns (blob: Bytes, o: Offsets, strSize: nat, treeSize: nat, later: Bytes)
    requires VersionTable(version).Some? && !bi.dt.deleted && Good(bi.dt, [], VersionTable(version).value.layout)
    requires var b := WriteBlob(bi, version, reservenum, minsize, padsize); b.Some? ==> |b.value| < 0x8000_0000
    ensures WriteBlob(bi, version, reservenum, minsize, padsize) == Some(blob) && 28 <= |blob| < 0x8000_0000
    ensures var vi := VersionTable(version).value;
      && Field(blob, 0) == MAGIC && Field(blob, 1) == |blob| && Field(blob, 5) == vi.version
      && Field(blob, 2) == o.dt && Field(blob, 3) == o.strings && Field(blob, 4) == o.reserve
      && (vi.version >= 2 ==> Field(blob, 7) == bi.bootCpuid)
      && (vi.version >= 3 ==> Field(blob, 8) == strSize)
      && (vi.version >= 17 ==> Field(blob, 9) == treeSize + 4)
      && o.reserve < |blob| && o.dt + treeSize + 4 <= |blob| && o.strings + strSize <= |blob|
      && later == blob[o.strings..if vi.version >= 3 then o.strings + strSize else |blob|]
      && ReadReserve(blob, o.reserve) == Some(BeforeEmpty(bi.reserve))
      && ReadWord(blob[o.dt..], 0) == Some((BEGIN_NODE, 4))
      && ReadNode(blob[o.dt..], 4, later, [], vi.layout) == Some((Canon(bi.dt, vi.layout), treeSize))
      && ReadWord(blob[o.dt..], treeSize) == Some((END, treeSize + 4))
  {
    hide ReadWord, ReadNode, ReadReserve, NodeBytes, Good, Canon, Field, Word32, BeforeEmpty, Stands, WriteBlob;
    var strs;
    blob, o, strSize, treeSize, later, strs := BlobHolds(bi, version, reservenum, minsize, padsize);
    TreeBlock(blob, o.dt, strs, later, bi.dt, VersionTable(version).value.layout);
  }

  /** The same for any names, up to reading the tree. */
  lemma BlobHolds(bi: BootInfo, version: int, reservenum: nat, minsize: nat, padsize: nat)
    returns (blob: Bytes, o: Offsets, strSize: nat, treeSize: nat, later: Bytes, strs: Bytes)
    requires VersionTable(version).Some?
    requires var b := WriteBlob(bi, version, reservenum, minsize, padsize); b.Some? ==> |b.value| < 0x8000_0000
    ensures WriteBlob(bi, version, reservenum, minsize, padsize) == Some(blob) && 28 <= |blob| < 0x8000_0000
    ensures var vi := VersionTable(version).value;
      && Field(blob, 0) == MAGIC && Field(blob, 1) == |blob| && Field(blob, 5) == vi.version
      && Field(blob, 2) == o.dt && Field(blob, 3) == o.strings && Field(blob, 4) == o.reserve
      && (vi.version >= 2 ==> Field(blob, 7) == bi.bootCpuid)
      && (vi.version >= 3 ==> Field(blob, 8) == strSize)
      && (vi.version >= 17 ==> Field(blob, 9) == treeSize + 4)
      && o.reserve < |blob| && o.dt + treeSize + 4 <= |blob| && o.strings + strSize <= |blob|
      && later == blob[o.strings..if vi.version >= 3 then o.strings + strSize else |blob|]
      && ReadReserve(blob, o.reserve) == Some(BeforeEmpty(bi.reserve))
    ensures var (tree, s) := NodeBytes(bi.dt, [], 0, [], VersionTable(version).value.layout);
      |tree| == treeSize && s == strs <= later && Stands(blob, o.dt, tree + Word32(END))
  {
    hide ReadReserve, NodeBytes, WordsBytes, HeaderWords, Field, Word32, BeforeEmpty, Stands, WriteBlob, LayOut, ReserveBytes,
         Zeros;
    var vi := VersionTable(version).value;
    var dt;
    blob, o, dt, strs := Written(bi, version, reservenum, minsize, padsize);
    OffsetsFit(vi, 16 * (|bi.reserve| + reservenum), |dt|, |strs|);
    strSize, treeSize := |strs|, |dt| - 4;
    HeaderStands(blob, vi, o, |blob|, |dt|, strSize, bi.bootCpuid);
    ReserveBlock(blob, o.reserve, bi.reserve, reservenum);
    StandsFits(blob, o.strings, strs);
    later := blob[o.strings..if vi.version >= 3 then o.strings + strSize else |blob|];
    assert strs <= later;
  }

  /** What the row of a version has in common with all the others. */
  lemma OffsetsFit(vi: VersionInfo, reserveSize: nat, dtSize: nat, strSize: nat)
    requires VersionTable(vi.version) == Some(vi)
    ensures var o := LayOut(vi, reserveSize, dtSize, strSize);
      && 28 <= vi.hdrSize <= o.reserve && o.reserve + reserveSize + 16 == o.dt
      && o.dt + dtSize == o.strings && o.strings + strSize == o.total
  {
  }

  /** The blocks that dt_to_blob puts together, and where they stand. */
  lemma Written(bi: BootInfo, version: int, reservenum: nat, minsize: nat, padsize: nat)
    returns (blob: Bytes, o: Offsets, dt: Bytes, strs: Bytes)
    requires VersionTable(version).Some?
    ensures WriteBlob(bi, version, reservenum, minsize, padsize) == Some(blob)
    ensures dt == NodeBytes(bi.dt, [], 0, [], VersionTable(version).value.layout).0 + Word32(END)
    ensures strs == NodeBytes(bi.dt, [], 0, [], VersionTable(version).value.layout).1
    ensures o == LayOut(VersionTable(version).value, 16 * (|bi.reserve| + reservenum), |dt|, |strs|) && o.total <= |blob|
    ensures var vi := VersionTable(version).value;
      Stands(blob, 0, WordsBytes(HeaderWords(vi, o, |blob|, |dt|, |strs|, bi.bootCpuid)[..vi.hdrSize / 4]))
    ensures Stands(blob, o.reserve, ReserveBytes(bi.reserve) + Zeros(16 * reservenum) + Zeros(16))
    ensures Stands(blob, o.dt, dt) && Stands(blob, o.strings, strs)
    ensures Stands(blob, VersionTable(version).value.hdrSize, Zeros(Pad(VersionTable(version).value.hdrSize, 8)))
    ensures |blob| == o.total + PadLength(o.total, minsize, padsize) && Stands(blob, o.total, Zeros(|blob| - o.total))
  {
    hide NodeBytes, ReserveBytes, WordsBytes, HeaderWords, Zeros, Word32, PadLength, Stands, Pad;
    var vi := VersionTable(version).value;
    var (tree, s) := NodeBytes(bi.dt, [], 0, [], vi.layout);
    dt, strs := tree + Word32(END), s;
    var reserve := ReserveBytes(bi.reserve) + Zeros(16 * reservenum);
    o := LayOut(vi, |reserve|, |dt|, |strs|);
    var padlen := PadLength(o.total, minsize, padsize);
    var header := WordsBytes(HeaderWords(vi, o, o.total + padlen, |dt|, |strs|, bi.bootCpuid)[..vi.hdrSize / 4]);
    blob := BlocksStand(header, Zeros(Pad(vi.hdrSize, 8)), reserve, dt, strs, Zeros(padlen));
  }
}
