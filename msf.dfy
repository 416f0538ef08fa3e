/**
 * The Multi-Stream Format container of a PDB: a header that names the page
 * size and the pages of the stream directory, the directory (stream sizes,
 * then the u16 page numbers of each stream), and streams read back by
 * concatenating their pages.
 */
module Msf {
  import opened Wrappers
  import opened Bytes

  /** The bytes of an ASCII literal. */
  function Ascii(s: string): (r: seq<int>)
    ensures |r| == |s|
  {
    seq(|s|, i requires 0 <= i < |s| => s[i] as int)
  }

  /** `szHdrMagic`, the 44-byte magic of the small (2.00) header. */
  function HdrMagic(): seq<int>
  {
    Ascii("Microsoft C/C++ program database 2.00\r\n") + [0x1A, 0x4A, 0x47, 0x00, 0x00]
  }

  /** `szBigHdrMagic`, the 30-byte magic of the big (7.00) header. */
  function BigHdrMagic(): seq<int>
  {
    Ascii("Microsoft C/C++ MSF 7.00\r\n") + [0x1A, 0x44, 0x53, 0x00]
  }

  lemma MagicLengths()
    ensures |HdrMagic()| == 44 && |BigHdrMagic()| == 30
    ensures HdrMagic()[16] != BigHdrMagic()[16]
  {
    assert Ascii("Microsoft C/C++ program database 2.00\r\n")[16] == 'p' as int;
    assert Ascii("Microsoft C/C++ MSF 7.00\r\n")[16] == 'M' as int;
  }

  /** `buf[:len(m)] == m`. */
  predicate HasPrefix(buf: seq<int>, m: seq<int>)
  {
    |m| <= |buf| && buf[..|m|] == m
  }

  /** `math.ceil(a / b)`: for these operands the float quotient rounds up to the integer one. */
  function CeilDiv(a: nat, b: nat): nat
    requires b > 0
  {
    (a + b - 1) / b
  }

  /** The smallest number of `b`-sized pages that hold `a` bytes. */
  lemma CeilDivIsCeiling(a: nat, b: nat)
    requires b > 0
    ensures CeilDiv(a, b) * b >= a
    ensures CeilDiv(a, b) == 0 || (CeilDiv(a, b) - 1) * b < a
  {
    var q, r := (a + b - 1) / b, (a + b - 1) % b;
    assert a + b - 1 == q * b + r;
    if q > 0 {
      assert (q - 1) * b == q * b - b;
    }
  }

  /** `n` u16 values at `off`, as `unpack_from(f"<{n}H", ...)`. */
  function ReadU16s(buf: byteseq, off: nat, n: nat): (r: Result<seq<nat>>)
    ensures r.Ok? <==> CanRead(buf, off, 2 * n)
    ensures r.Ok? ==> |r.value| == n && forall i :: 0 <= i < n ==> CanRead(buf, off + 2 * i, 2) && r.value[i] == U16(buf, off + 2 * i)
    ensures r.Err? ==> r.error == StructError
  {
    if !CanRead(buf, off, 2 * n) then Err(StructError)
    else Ok(seq(n, i requires 0 <= i < n => U16(buf, off + 2 * i)))
  }

  /** `n` u32 values at `off`, as `unpack_from(f"<{n}I", ...)`. */
  function ReadU32s(buf: byteseq, off: nat, n: nat): (r: Result<seq<nat>>)
    ensures r.Ok? <==> CanRead(buf, off, 4 * n)
    ensures r.Ok? ==> |r.value| == n && forall i :: 0 <= i < n ==> CanRead(buf, off + 4 * i, 4) && r.value[i] == U32(buf, off + 4 * i)
    ensures r.Err? ==> r.error == StructError
  {
    if !CanRead(buf, off, 4 * n) then Err(StructError)
    else Ok(seq(n, i requires 0 <= i < n => U32(buf, off + 4 * i)))
  }

  datatype MsfHeader = MsfHeader(magic: seq<int>, pageSize: nat, fpmPageNo: nat, numPages: nat, streamDirSize: nat, blockMaps: seq<nat>)

  /**
   * `MSFHeader.from_bytes`. The formats carry no byte-order prefix, so the
   * native layout applies (taken as little-endian, 4-byte aligned): the big
   * header "30s4I4x" has its four u32 at 32 and is 52 bytes long, the small
   * header "44sI2HI4x" has a u32, two u16 and a u32 at 44 and is 60 bytes
   * long. The block-map page numbers follow, u32 in the big format and u16
   * in the small one, one per page of the stream directory.
   */
  function HeaderFromBytes(buf: byteseq): (r: Result<MsfHeader>)
    ensures !HasPrefix(buf, HdrMagic()) && !HasPrefix(buf, BigHdrMagic()) <==> r == Err(ValueError)
    ensures r.Ok? ==> r.value.pageSize > 0 && |r.value.blockMaps| == CeilDiv(r.value.streamDirSize, r.value.pageSize)
    ensures r.Ok? && HasPrefix(buf, BigHdrMagic()) ==>
      && CanRead(buf, 0, 52) && r.value.magic == buf[..30] && r.value.pageSize == U32(buf, 32) && r.value.streamDirSize == U32(buf, 44)
      && forall i :: 0 <= i < |r.value.blockMaps| ==> CanRead(buf, 52 + 4 * i, 4) && r.value.blockMaps[i] == U32(buf, 52 + 4 * i)
    ensures r.Ok? && HasPrefix(buf, HdrMagic()) ==>
      && CanRead(buf, 0, 60) && r.value.magic == buf[..44] && r.value.pageSize == U32(buf, 44) && r.value.streamDirSize == U32(buf, 52)
      && forall i :: 0 <= i < |r.value.blockMaps| ==> CanRead(buf, 60 + 2 * i, 2) && r.value.blockMaps[i] == U16(buf, 60 + 2 * i)
  {
    MagicsExclusive(buf);
    if HasPrefix(buf, HdrMagic()) then SmallHeader(buf)
    else if HasPrefix(buf, BigHdrMagic()) then BigHeader(buf)
    else Err(ValueError)
  }

  /** The "44sI2HI4x" header and its u16 block-map page numbers. */
  function SmallHeader(buf: byteseq): (r: Result<MsfHeader>)
    ensures r != Err(ValueError)
    ensures r.Ok? ==> r.value.pageSize > 0 && |r.value.blockMaps| == CeilDiv(r.value.streamDirSize, r.value.pageSize)
    ensures r.Ok? ==>
      && CanRead(buf, 0, 60) && r.value.magic == buf[..44] && r.value.pageSize == U32(buf, 44) && r.value.streamDirSize == U32(buf, 52)
      && forall i :: 0 <= i < |r.value.blockMaps| ==> CanRead(buf, 60 + 2 * i, 2) && r.value.blockMaps[i] == U16(buf, 60 + 2 * i)
  {
    if !CanRead(buf, 0, 60) then Err(StructError)
    else
      var pageSize, dirSize := U32(buf, 44), U32(buf, 52);
      if pageSize == 0 then Err(ZeroDivision)
      else
        var maps := ReadU16s(buf, 60, CeilDiv(dirSize, pageSize));
        if maps.Err? then Err(maps.error)
        else Ok(MsfHeader(buf[..44], pageSize, U16(buf, 48), U16(buf, 50), dirSize, maps.value))
  }

  /** The "30s4I4x" header and its u32 block-map page numbers. */
  function BigHeader(buf: byteseq): (r: Result<MsfHeader>)
    ensures r != Err(ValueError)
    ensures r.Ok? ==> r.value.pageSize > 0 && |r.value.blockMaps| == CeilDiv(r.value.streamDirSize, r.value.pageSize)
    ensures r.Ok? ==>
      && CanRead(buf, 0, 52) && r.value.magic == buf[..30] && r.value.pageSize == U32(buf, 32) && r.value.streamDirSize == U32(buf, 44)
      && forall i :: 0 <= i < |r.value.blockMaps| ==> CanRead(buf, 52 + 4 * i, 4) && r.value.blockMaps[i] == U32(buf, 52 + 4 * i)
  {
    if !CanRead(buf, 0, 52) then Err(StructError)
    else
      var pageSize, dirSize := U32(buf, 32), U32(buf, 44);
      if pageSize == 0 then Err(ZeroDivision)
      else
        var maps := ReadU32s(buf, 52, CeilDiv(dirSize, pageSize));
        if maps.Err? then Err(maps.error)
        else Ok(MsfHeader(buf[..30], pageSize, U32(buf, 36), U32(buf, 40), dirSize, maps.value))
  }

  /** No buffer carries both magics, so the format is never ambiguous. */
  lemma MagicsExclusive(buf: seq<int>)
    ensures !(HasPrefix(buf, HdrMagic()) && HasPrefix(buf, BigHdrMagic()))
  {
    MagicLengths();
    if HasPrefix(buf, HdrMagic()) {
      assert buf[16] == HdrMagic()[16];
    }
  }

  // ---- the stream directory ----

  datatype MsfStream = MsfStream(size: int, pages: seq<nat>)

  /**
   * The `n` stream sizes: an i32 every 8 bytes from offset 4. The reads go
   * forward, so they all succeed iff the last one does.
   */
  function Sizes(dir: byteseq, n: nat): (r: Result<seq<int>>)
    ensures r.Ok? <==> n == 0 || CanRead(dir, 4 + 8 * (n - 1), 4)
    ensures r.Ok? ==> |r.value| == n && forall i :: 0 <= i < n ==> CanRead(dir, 4 + 8 * i, 4) && r.value[i] == I32(dir, 4 + 8 * i)
    ensures r.Err? ==> r.error == StructError
  {
    if n > 0 && !CanRead(dir, 4 + 8 * (n - 1), 4) then Err(StructError)
    else Ok(seq(n, i requires 0 <= i < n => I32(dir, 4 + 8 * i)))
  }

  /**
   * The streams for the sizes from index `k`, their page numbers read from
   * `off`: a negative size is skipped without a stream and without reading,
   * any other takes `ceil(size / page_size)` u16 page numbers.
   */
  function StreamsFrom(dir: byteseq, pageSize: nat, sizes: seq<int>, k: nat, off: nat): (r: Result<seq<MsfStream>>)
    requires k <= |sizes|
    ensures r.Err? ==> r.error == StructError || r.error == ZeroDivision
    decreases |sizes| - k
  {
    if k == |sizes| then Ok([])
    else if sizes[k] < 0 then StreamsFrom(dir, pageSize, sizes, k + 1, off)
    else if pageSize == 0 then Err(ZeroDivision)
    else
      var n := CeilDiv(sizes[k], pageSize);
      match ReadU16s(dir, off, n)
      case Err(e) => Err(e)
      case Ok(pages) =>
        match StreamsFrom(dir, pageSize, sizes, k + 1, off + 2 * n)
        case Err(e) => Err(e)
        case Ok(rest) => Ok([MsfStream(sizes[k], pages)] + rest)
  }

  /** `get_stream_directory`, consumed whole by `tuple`: the stream count, the sizes, then the page lists. */
  function StreamDirectory(dir: byteseq, pageSize: nat): (r: Result<seq<MsfStream>>)
  {
    if !CanRead(dir, 0, 4) then Err(StructError)
    else
      var n := U16(dir, 0);
      match Sizes(dir, n)
      case Err(e) => Err(e)
      case Ok(sizes) => StreamsFrom(dir, pageSize, sizes, 0, 4 + 8 * n)
  }

  /** The sizes from index `k` that are not negative, in order. */
  function NonNegative(sizes: seq<int>, k: nat): seq<int>
    requires k <= |sizes|
    decreases |sizes| - k
  {
    if k == |sizes| then [] else (if sizes[k] < 0 then [] else [sizes[k]]) + NonNegative(sizes, k + 1)
  }

  function SizesOf(ss: seq<MsfStream>): seq<int>
  {
    if ss == [] then [] else [ss[0].size] + SizesOf(ss[1..])
  }

  /**
   * The directory holds one stream per non-negative size, in order, each
   * with `ceil(size / page_size)` pages: a skipped size shifts the position
   * of every later stream.
   */
  lemma {:induction false} StreamsShape(dir: byteseq, pageSize: nat, sizes: seq<int>, k: nat, off: nat)
    requires k <= |sizes| && StreamsFrom(dir, pageSize, sizes, k, off).Ok?
    ensures var ss := StreamsFrom(dir, pageSize, sizes, k, off).value;
      && SizesOf(ss) == NonNegative(sizes, k)
      && forall j :: 0 <= j < |ss| ==> pageSize > 0 && ss[j].size >= 0 && |ss[j].pages| == CeilDiv(ss[j].size, pageSize)
    decreases |sizes| - k
  {
    if k < |sizes| {
      if sizes[k] < 0 {
        StreamsShape(dir, pageSize, sizes, k + 1, off);
      } else {
        var n := CeilDiv(sizes[k], pageSize);
        StreamsShape(dir, pageSize, sizes, k + 1, off + 2 * n);
        var ss := StreamsFrom(dir, pageSize, sizes, k, off).value;
        assert ss[1..] == StreamsFrom(dir, pageSize, sizes, k + 1, off + 2 * n).value;
      }
    }
  }

  /** A negative size leaves no stream behind: the stream after it moves into its place. */
  lemma NegativeSizeShifts(dir: byteseq, pageSize: nat, off: nat)
    requires pageSize > 0 && CanRead(dir, off, 2)
    ensures StreamsFrom(dir, pageSize, [-1, 1], 0, off) == Ok([MsfStream(1, [U16(dir, off)])])
  {
    assert CeilDiv(1, pageSize) == 1;
    var sizes: seq<int> := [-1, 1];
    assert |sizes| == 2 && sizes[0] < 0 && sizes[1] == 1;
    assert StreamsFrom(dir, pageSize, sizes, 2, off + 2) == Ok([]);
    var pages := ReadU16s(dir, off, 1);
    assert pages.Ok? && |pages.value| == 1 && pages.value[0] == U16(dir, off);
    assert pages.value == [U16(dir, off)];
    assert CeilDiv(sizes[1], pageSize) == 1;
    assert [MsfStream(1, pages.value)] + [] == [MsfStream(1, pages.value)];
    assert StreamsFrom(dir, pageSize, sizes, 1, off) == Ok([MsfStream(1, [U16(dir, off)])]);
  }

  // ---- the loop ----

  function GlueStreams(acc: seq<MsfStream>, r: Result<seq<MsfStream>>): Result<seq<MsfStream>>
  {
    match r
    case Ok(rest) => Ok(acc + rest)
    case Err(e) => Err(e)
  }

  /** `get_stream_directory`: the size loop, then the page-list loop advancing `offset`. */
  method GetStreamDirectory(dir: byteseq, pageSize: nat) returns (r: Result<seq<MsfStream>>)
    ensures r == StreamDirectory(dir, pageSize)
  {
    if !CanRead(dir, 0, 4) {
      return Err(StructError);
    }
    var nStreams := U16(dir, 0);
    var offset := 4;
    var sizes: seq<int> := [];
    var k := 0;
    while k < nStreams
      invariant k <= nStreams && offset == 4 + 8 * k
      invariant |sizes| == k && forall i :: 0 <= i < k ==> CanRead(dir, 4 + 8 * i, 4) && sizes[i] == I32(dir, 4 + 8 * i)
    {
      if !CanRead(dir, offset, 4) {
        return Err(StructError);
      }
      sizes := sizes + [I32(dir, offset)];
      offset := offset + 8;
      k := k + 1;
    }
    if nStreams > 0 {
      assert CanRead(dir, 4 + 8 * (nStreams - 1), 4) && sizes[nStreams - 1] == I32(dir, 4 + 8 * (nStreams - 1));
    }
    assert Sizes(dir, nStreams).Ok?;
    assert Sizes(dir, nStreams).value == sizes;
    r := ReadStreams(dir, pageSize, sizes, offset);
  }

  /** The page-list loop of `get_stream_directory`. */
  method ReadStreams(dir: byteseq, pageSize: nat, sizes: seq<int>, start: nat) returns (r: Result<seq<MsfStream>>)
    ensures r == StreamsFrom(dir, pageSize, sizes, 0, start)
  {
    var streams: seq<MsfStream> := [];
    var offset := start;
    ghost var all := StreamsFrom(dir, pageSize, sizes, 0, start);
    assert all.Ok? ==> [] + all.value == all.value;
    for k := 0 to |sizes|
      invariant all == GlueStreams(streams, StreamsFrom(dir, pageSize, sizes, k, offset))
    {
      var size := sizes[k];
      if size < 0 {
        continue;
      }
      if pageSize == 0 {
        return Err(ZeroDivision);
      }
      var n := CeilDiv(size, pageSize);
      var pages := ReadU16s(dir, offset, n);
      if pages.Err? {
        return Err(pages.error);
      }
      ghost var rest := StreamsFrom(dir, pageSize, sizes, k + 1, offset + 2 * n);
      assert rest.Ok? ==> streams + ([MsfStream(size, pages.value)] + rest.value) == (streams + [MsfStream(size, pages.value)]) + rest.value;
      streams := streams + [MsfStream(size, pages.value)];
      offset := offset + 2 * n;
    }
    assert streams + [] == streams;
    return Ok(streams);
  }

  // ---- the container ----

  /** `get_page`: bytes [n * page_size, (n + 1) * page_size) of the file, cut short at its end. */
  function GetPage(data: byteseq, pageSize: nat, n: nat): seq<int>
  {
    Slice(data, pageSize * n, pageSize * n + pageSize)
  }

  /** A page inside the file is `page_size` bytes long and holds the file's bytes from `n * page_size`. */
  lemma PageInside(data: byteseq, pageSize: nat, n: nat)
    requires pageSize > 0 && pageSize * n + pageSize <= |data|
    ensures |GetPage(data, pageSize, n)| == pageSize
    ensures forall i :: 0 <= i < pageSize ==> GetPage(data, pageSize, n)[i] == data[pageSize * n + i]
  {
    assert pageSize * (n + 1) == pageSize * n + pageSize;
  }

  /** A page wholly past the end of the file is empty. */
  lemma PagePastEnd(data: byteseq, pageSize: nat, n: nat)
    requires pageSize * n >= |data|
    ensures GetPage(data, pageSize, n) == []
  {}

  /** `combine_pages`: the pages in order, joined. */
  function CombinePages(data: byteseq, pageSize: nat, pages: seq<nat>): seq<int>
  {
    if pages == [] then [] else CombinePages(data, pageSize, pages[..|pages| - 1]) + GetPage(data, pageSize, pages[|pages| - 1])
  }

  /** Joined pages are bytes. */
  lemma {:induction false} CombineBytes(data: byteseq, pageSize: nat, pages: seq<nat>)
    ensures IsBytes(CombinePages(data, pageSize, pages))
  {
    if pages != [] {
      CombineBytes(data, pageSize, pages[..|pages| - 1]);
    }
  }

  ghost predicate PagesInside(data: byteseq, pageSize: nat, pages: seq<nat>)
  {
    forall k :: 0 <= k < |pages| ==> pageSize * pages[k] + pageSize <= |data|
  }

  /** Whole blocks of `b` bytes grow with their count. */
  lemma MulMono(x: nat, y: nat, b: nat)
    requires x <= y
    ensures x * b <= y * b
  {
    assert y * b - x * b == (y - x) * b;
  }

  /** With every page inside the file, the joined pages are `page_size` bytes per page. */
  lemma {:induction false} CombineLength(data: byteseq, pageSize: nat, pages: seq<nat>)
    requires pageSize > 0 && PagesInside(data, pageSize, pages)
    ensures |CombinePages(data, pageSize, pages)| == |pages| * pageSize
  {
    if pages != [] {
      var p := pages[..|pages| - 1];
      var last := pages[|pages| - 1];
      assert PagesInside(data, pageSize, p);
      CombineLength(data, pageSize, p);
      PageInside(data, pageSize, last);
      assert CombinePages(data, pageSize, pages) == CombinePages(data, pageSize, p) + GetPage(data, pageSize, last);
      MulSucc(|p|, |pages|, pageSize);
    }
  }

  lemma MulSucc(m: nat, n: nat, b: nat)
    requires n == m + 1
    ensures n * b == m * b + b
  {
  }

  /** The last joined page: byte `r` of it is byte `r` of that page of the file. */
  lemma CombineLast(data: byteseq, pageSize: nat, pages: seq<nat>, r: nat)
    requires pageSize > 0 && PagesInside(data, pageSize, pages)
    requires pages != [] && r < pageSize
    ensures (|pages| - 1) * pageSize + r < |CombinePages(data, pageSize, pages)|
    ensures CombinePages(data, pageSize, pages)[(|pages| - 1) * pageSize + r] == data[pageSize * pages[|pages| - 1] + r]
  {
    var k := |pages| - 1;
    var p := pages[..k];
    assert PagesInside(data, pageSize, p);
    CombineLength(data, pageSize, p);
    PageInside(data, pageSize, pages[k]);
    var cp := CombinePages(data, pageSize, p);
    var page := GetPage(data, pageSize, pages[k]);
    assert CombinePages(data, pageSize, pages) == cp + page;
    assert (cp + page)[k * pageSize + r] == page[r];
  }

  /** Joining one more page leaves the earlier bytes where they were. */
  lemma CombineKeeps(data: byteseq, pageSize: nat, pages: seq<nat>, i: nat)
    requires pages != [] && i < |CombinePages(data, pageSize, pages[..|pages| - 1])|
    ensures i < |CombinePages(data, pageSize, pages)|
    ensures CombinePages(data, pageSize, pages)[i] == CombinePages(data, pageSize, pages[..|pages| - 1])[i]
  {}

  /**
   * With every page inside the file, byte `r` of the `j`-th joined page is
   * byte `r` of page number `pages[j]` of the file.
   */
  lemma CombineAt(data: byteseq, pageSize: nat, pages: seq<nat>, j: nat, r: nat)
    requires pageSize > 0 && PagesInside(data, pageSize, pages)
    requires j < |pages| && r < pageSize
    ensures j * pageSize + r < |CombinePages(data, pageSize, pages)|
    ensures CombinePages(data, pageSize, pages)[j * pageSize + r] == data[pageSize * pages[j] + r]
  {
    CombineAtOffset(data, pageSize, pages, j, r, j * pageSize + r);
  }

  /** `CombineAt` with the offset `j * page_size + r` named `i`. */
  lemma {:induction false} CombineAtOffset(data: byteseq, pageSize: nat, pages: seq<nat>, j: nat, r: nat, i: nat)
    requires pageSize > 0 && PagesInside(data, pageSize, pages)
    requires j < |pages| && r < pageSize && i == j * pageSize + r
    ensures i < |CombinePages(data, pageSize, pages)|
    ensures CombinePages(data, pageSize, pages)[i] == data[pageSize * pages[j] + r]
  {
    var k := |pages| - 1;
    if j < k {
      var p := pages[..k];
      assert PagesInside(data, pageSize, p);
      CombineAtOffset(data, pageSize, p, j, r, i);
      CombineKeeps(data, pageSize, pages, i);
      assert pages[j] == p[j];
    } else {
      CombineLast(data, pageSize, pages, r);
    }
  }

  datatype MsfContainer = MsfContainer(data: byteseq, header: MsfHeader, streamDir: seq<MsfStream>)

  /** `combine_pages(header.block_maps)`: the stream directory's bytes. */
  function BlockMapData(data: byteseq, h: MsfHeader): byteseq
  {
    CombineBytes(data, h.pageSize, h.blockMaps);
    CombinePages(data, h.pageSize, h.blockMaps)
  }

  /** `MSFContainer.__init__`: the header, then the directory from the joined block-map pages. */
  function Open(data: byteseq): (r: Result<MsfContainer>)
    ensures r.Ok? ==> HeaderFromBytes(data) == Ok(r.value.header) && r.value.data == data
    ensures r.Ok? ==> StreamDirectory(BlockMapData(data, r.value.header), r.value.header.pageSize) == Ok(r.value.streamDir)
  {
    match HeaderFromBytes(data)
    case Err(e) => Err(e)
    case Ok(h) =>
      match StreamDirectory(BlockMapData(data, h), h.pageSize)
      case Err(e) => Err(e)
      case Ok(dir) => Ok(MsfContainer(data, h, dir))
  }

  /** `get_stream`: the stream's pages joined and cut to `[:size]`; ids, and a negative size, count from the end as Python indexing does. */
  function GetStream(c: MsfContainer, id: int): (r: Result<byteseq>)
    ensures r.Err? <==> !(-|c.streamDir| <= id < |c.streamDir|)
    ensures r.Err? ==> r.error == IndexError
  {
    if !(-|c.streamDir| <= id < |c.streamDir|) then Err(IndexError)
    else
      var s := c.streamDir[if id < 0 then |c.streamDir| + id else id];
      var joined := CombinePages(c.data, c.header.pageSize, s.pages);
      CombineBytes(c.data, c.header.pageSize, s.pages);
      var cut := if s.size >= 0 then (if s.size <= |joined| then s.size else |joined|)
                 else (if |joined| + s.size >= 0 then |joined| + s.size else 0);
      var out: byteseq := joined[..cut];
      Ok(out)
  }

  /** Every stream of a decoded directory has a non-negative size and `ceil(size / page_size)` pages. */
  lemma DirectoryShape(dir: byteseq, pageSize: nat, ss: seq<MsfStream>)
    requires StreamDirectory(dir, pageSize) == Ok(ss)
    ensures forall j :: 0 <= j < |ss| ==> pageSize > 0 && ss[j].size >= 0 && |ss[j].pages| == CeilDiv(ss[j].size, pageSize)
  {
    var n := U16(dir, 0);
    var sizes := Sizes(dir, n).value;
    StreamsShape(dir, pageSize, sizes, 0, 4 + 8 * n);
  }

  /** Every stream of an opened container has a non-negative size and `ceil(size / page_size)` pages. */
  lemma OpenStreamShape(data: byteseq, id: nat)
    requires Open(data).Ok? && id < |Open(data).value.streamDir|
    ensures var c := Open(data).value;
      && c.header.pageSize > 0 && c.streamDir[id].size >= 0
      && |c.streamDir[id].pages| == CeilDiv(c.streamDir[id].size, c.header.pageSize)
  {
    var c := Open(data).value;
    DirectoryShape(BlockMapData(data, c.header), c.header.pageSize, c.streamDir);
  }

  /**
   * A stream whose shape is that of an opened container (see
   * `OpenStreamShape`) and whose pages all lie inside the file reads back
   * exactly `size` bytes, and byte `r` of its `j`-th page is byte `r` of page
   * number `pages[j]` of the file.
   */
  lemma StreamReadsBack(c: MsfContainer, id: nat, j: nat, r: nat)
    requires id < |c.streamDir|
    requires var s, ps := c.streamDir[id], c.header.pageSize;
      && ps > 0 && s.size >= 0 && |s.pages| == CeilDiv(s.size, ps)
      && PagesInside(c.data, ps, s.pages)
      && r < ps && j * ps + r < s.size
    ensures var s, ps := c.streamDir[id], c.header.pageSize;
      && GetStream(c, id).Ok? && |GetStream(c, id).value| == s.size
      && j < |s.pages| && GetStream(c, id).value[j * ps + r] == c.data[ps * s.pages[j] + r]
  {
    var ps := c.header.pageSize;
    var s := c.streamDir[id];
    CombineLength(c.data, ps, s.pages);
    CeilDivIsCeiling(s.size, ps);
    if j >= |s.pages| {
      MulMono(|s.pages|, j, ps);
      assert false;
    }
    CombineAt(c.data, ps, s.pages, j, r);
  }
}
