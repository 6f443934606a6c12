/** Loading a segment of an ELF executable lazily (load and validate_segment in
    src/userprog/process.c, spt_initialize_file_as_lazy in src/vm/spt.c). */
module Elf {
  import opened Paging

  /** A program header, as far as loading uses it; the fields are 32-bit words. */
  datatype Header = Header(offset: nat, vaddr: nat, filesz: nat, memsz: nat)

  predicate Words(h: Header) {
    h.offset < WORD && h.vaddr < WORD && h.filesz < WORD && h.memsz < WORD
  }

  function Wrap(x: int): (r: nat)
    ensures r < WORD && (0 <= x < WORD ==> r == x)
  {
    x % WORD
  }

  /** validate_segment, with sums that wrap around. */
  predicate Validate(h: Header, fileLength: nat) {
    && h.offset % PGSIZE == h.vaddr % PGSIZE
    && h.offset <= fileLength
    && h.memsz >= h.filesz
    && h.memsz != 0
    && h.vaddr < PHYS_BASE
    && Wrap(h.vaddr + h.memsz) < PHYS_BASE
    && Wrap(h.vaddr + h.memsz) >= h.vaddr
    && h.vaddr >= PGSIZE
  }

  /** validate_segment accepts exactly the segments that lie in user memory above its first page,
      are not empty, fit their memory size, begin inside the file, and keep their place in a
      page. */
  lemma ValidateIs(h: Header, fileLength: nat)
    requires Words(h)
    ensures Validate(h, fileLength) <==>
            && 4096 <= h.vaddr && h.vaddr + h.memsz < 0xC000_0000 && 0 < h.memsz && h.filesz <= h.memsz
            && h.offset <= fileLength && (h.vaddr - h.offset) % 4096 == 0
  {
    SamePlace(h.vaddr, h.offset);
  }

  lemma SamePlace(a: nat, b: nat)
    ensures a % PGSIZE == b % PGSIZE <==> (a - b) % PGSIZE == 0
  {
    assert a == a / PGSIZE * PGSIZE + a % PGSIZE && b == b / PGSIZE * PGSIZE + b % PGSIZE;
  }

  /** ROUND_UP to a page, in 32-bit arithmetic. */
  function RoundUp(x: nat): nat {
    Wrap(Wrap(x + PGSIZE - 1) / PGSIZE * PGSIZE)
  }

  /** The arguments load passes on: file offset, address, bytes to read and bytes to zero. */
  datatype Range = Range(ofs: nat, upage: nat, readBytes: nat, zeroBytes: nat)

  /** load's computations for a PT_LOAD segment, in 32-bit arithmetic. */
  function LoadRange(h: Header): Range {
    var pageOffset := h.vaddr % PGSIZE;
    var end := RoundUp(Wrap(pageOffset + h.memsz));
    if h.filesz > 0 then
      var readBytes := Wrap(pageOffset + h.filesz);
      Range(h.offset - h.offset % PGSIZE, h.vaddr - h.vaddr % PGSIZE, readBytes, Wrap(end - readBytes))
    else
      Range(h.offset - h.offset % PGSIZE, h.vaddr - h.vaddr % PGSIZE, 0, end)
  }

  /** For every header that validate_segment accepts, no sum wraps around: the range ends
      where the segment does, rounded up to a page, inside user memory. */
  lemma NothingWraps(h: Header, fileLength: nat)
    requires Words(h) && Validate(h, fileLength)
    ensures var r := LoadRange(h); var pageOffset := h.vaddr % PGSIZE;
            && r.readBytes == (if h.filesz > 0 then pageOffset + h.filesz else 0)
            && r.readBytes + r.zeroBytes == (pageOffset + h.memsz + PGSIZE - 1) / PGSIZE * PGSIZE
            && (r.readBytes + r.zeroBytes) % PGSIZE == 0
            && r.upage % PGSIZE == 0 && r.upage >= PGSIZE && r.ofs % PGSIZE == 0
            && r.upage + pageOffset == h.vaddr && r.ofs + pageOffset == h.offset
            && h.vaddr + h.memsz <= r.upage + r.readBytes + r.zeroBytes <= PHYS_BASE
  {
    EndInUserMemory(h.vaddr, h.memsz);
    hide Wrap, RoundUp;
    var pageOffset := h.vaddr % PGSIZE;
    RoundedUp(pageOffset + h.memsz);
    RoundedEnd(h.vaddr, h.memsz);
  }

  lemma EndInUserMemory(vaddr: nat, memsz: nat)
    requires vaddr < PHYS_BASE && memsz < WORD && vaddr <= Wrap(vaddr + memsz) < PHYS_BASE
    ensures vaddr + memsz < PHYS_BASE
  {
  }

  lemma RoundedUp(x: nat)
    requires x + PGSIZE <= WORD
    ensures RoundUp(x) == (x + PGSIZE - 1) / PGSIZE * PGSIZE && x <= RoundUp(x)
  {
  }

  /** The end of the last page of a segment. */
  lemma RoundedEnd(vaddr: nat, memsz: nat)
    requires vaddr + memsz < PHYS_BASE
    ensures var base, end := vaddr - vaddr % PGSIZE, (vaddr % PGSIZE + memsz + PGSIZE - 1) / PGSIZE * PGSIZE;
            base % PGSIZE == 0 && vaddr + memsz <= base + end <= PHYS_BASE
  {
  }

  // ---- splitting a range into pages ---------------------------------------------------------------

  datatype LazyPage = LazyPage(uaddr: nat, offset: nat, readBytes: nat, zeroBytes: nat)

  /** How many of the bytes to read fall into page i. */
  function ReadIn(readBytes: nat, i: nat): (n: nat)
    ensures n <= PGSIZE
  {
    if readBytes <= i * PGSIZE then 0 else if readBytes - i * PGSIZE < PGSIZE then readBytes - i * PGSIZE else PGSIZE
  }

  function PageOf(r: Range, i: nat): LazyPage {
    LazyPage(r.upage + i * PGSIZE, r.ofs + i * PGSIZE, ReadIn(r.readBytes, i), PGSIZE - ReadIn(r.readBytes, i))
  }

  function PagesOf(r: Range, n: nat): (s: seq<LazyPage>)
    ensures |s| == n && forall i | 0 <= i < n :: s[i] == PageOf(r, i)
  {
    seq(n, i requires 0 <= i < n => PageOf(r, i))
  }

  /** spt_initialize_file_as_lazy: one entry per page, until a page is already there.  The
      two counts never go below zero. */
  method InitializeLazy(r: Range, taken: set<nat>) returns (ok: bool, pages: seq<LazyPage>)
    requires (r.readBytes + r.zeroBytes) % PGSIZE == 0
    ensures |pages| <= (r.readBytes + r.zeroBytes) / PGSIZE && pages == PagesOf(r, |pages|)
    ensures ok <==> forall i | 0 <= i < (r.readBytes + r.zeroBytes) / PGSIZE :: PageOf(r, i).uaddr !in taken
    ensures ok ==> |pages| == (r.readBytes + r.zeroBytes) / PGSIZE
    ensures !ok ==> |pages| < (r.readBytes + r.zeroBytes) / PGSIZE && PageOf(r, |pages|).uaddr in taken
  {
    var ofs, upage, readBytes, zeroBytes := r.ofs, r.upage, r.readBytes, r.zeroBytes;
    ghost var n := (r.readBytes + r.zeroBytes) / PGSIZE;
    pages := [];
    while readBytes > 0 || zeroBytes > 0
      invariant |pages| <= n && pages == PagesOf(r, |pages|)
      invariant ofs == r.ofs + |pages| * PGSIZE && upage == r.upage + |pages| * PGSIZE
      invariant readBytes + zeroBytes == (n - |pages|) * PGSIZE
      invariant readBytes == if r.readBytes <= |pages| * PGSIZE then 0 else r.readBytes - |pages| * PGSIZE
      invariant forall i | 0 <= i < |pages| :: PageOf(r, i).uaddr !in taken
      decreases readBytes + zeroBytes
    {
      var pageRead := if readBytes < PGSIZE then readBytes else PGSIZE;
      var pageZero := PGSIZE - pageRead;
      assert LazyPage(upage, ofs, pageRead, pageZero) == PageOf(r, |pages|);
      if upage in taken {
        return false, pages;
      }
      pages := pages + [LazyPage(upage, ofs, pageRead, pageZero)];
      readBytes, zeroBytes := readBytes - pageRead, zeroBytes - pageZero;
      ofs, upage := ofs + PGSIZE, upage + PGSIZE;
    }
    ok := true;
  }

  // ---- the image ------------------------------------------------------------------------------------

  /** The byte at an address once the page that holds it has been loaded. */
  function LoadedByte(data: Bytes, r: Range, address: nat): Byte
    requires r.upage <= address
  {
    var i := (address - r.upage) / PGSIZE;
    Image(data, PageOf(r, i).offset, PageOf(r, i).readBytes)[(address - r.upage) % PGSIZE]
  }

  lemma ByteOfPage(data: Bytes, r: Range, x: nat)
    ensures LoadedByte(data, r, r.upage + x) ==
            if x < r.readBytes && r.ofs + x < |data| then data[r.ofs + x] else 0
  {
    var i, j := x / PGSIZE, x % PGSIZE;
    assert x == i * PGSIZE + j;
  }

  /** A validated segment is loaded as the ELF specification says (Book I, "Program Header"):
      every byte has its page, the first p_filesz bytes come from the file at p_offset, and
      the bytes from there up to p_memsz are zero. */
  lemma SegmentImage(h: Header, data: Bytes, k: nat)
    requires Words(h) && Validate(h, |data|) && k < h.memsz
    ensures var r := LoadRange(h); var n := (r.readBytes + r.zeroBytes) / PGSIZE;
            && r.upage <= h.vaddr + k
            && (h.vaddr + k - r.upage) / PGSIZE < n
            && PageOf(r, (h.vaddr + k - r.upage) / PGSIZE).uaddr == h.vaddr + k - (h.vaddr + k) % PGSIZE
            && h.vaddr + k < PHYS_BASE
            && LoadedByte(data, r, h.vaddr + k) ==
               if k < h.filesz && h.offset + k < |data| then data[h.offset + k] else 0
  {
    hide LoadRange, LoadedByte, Validate, Image, PageOf;
    NothingWraps(h, |data|);
    var r := LoadRange(h);
    var x := h.vaddr + k - r.upage;
    ByteOfPage(data, r, x);
    PageOfByte(r, x);
  }

  /** The page of byte x of a range. */
  lemma PageOfByte(r: Range, x: nat)
    requires r.upage % PGSIZE == 0
    ensures PageOf(r, x / PGSIZE).uaddr == r.upage + x - (r.upage + x) % PGSIZE
    ensures (r.readBytes + r.zeroBytes) % PGSIZE == 0 && x < r.readBytes + r.zeroBytes ==>
              x / PGSIZE < (r.readBytes + r.zeroBytes) / PGSIZE
  {
  }

  /** All pages of the segment can be loaded exactly if the file has the bytes. */
  lemma SegmentLoads(h: Header, data: Bytes)
    requires Words(h) && Validate(h, |data|)
    ensures var r := LoadRange(h); var n := (r.readBytes + r.zeroBytes) / PGSIZE;
            (forall i: nat | i < n ::
                PageOf(r, i).readBytes == 0 || PageOf(r, i).offset + PageOf(r, i).readBytes <= |data|)
            <==> h.filesz == 0 || h.offset + h.filesz <= |data|
  {
    NothingWraps(h, |data|);
    var r := LoadRange(h);
    var n := (r.readBytes + r.zeroBytes) / PGSIZE;
    if h.filesz > 0 {
      var last := (r.readBytes - 1) / PGSIZE;
      assert last < n && PageOf(r, last).readBytes > 0;
      assert PageOf(r, last).offset + PageOf(r, last).readBytes == h.offset + h.filesz;
      hide LoadRange, Validate;
      forall i: nat | i < n && PageOf(r, i).readBytes != 0
        ensures PageOf(r, i).offset + PageOf(r, i).readBytes <= h.offset + h.filesz
      {
      }
    }
  }

  /** A mapping of a whole file, too, is a range of whole pages. */
  lemma MappingRange(length: nat)
    ensures (length + (PGSIZE - length % PGSIZE) % PGSIZE) % PGSIZE == 0
  {
  }
}
