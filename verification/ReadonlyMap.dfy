/** The read-only address map (api.c): two flag bits per page, and a sorted table of bitmaps for partly read-only
    pages. */
module ReadonlyMap {

  const PAGE_SIZE := 4096
  const PAGES := 0x10_0000
  const MAX_PARTIAL := 64
  const NO_PAGE := 0xFFFF_FFFF
  const WORD := 0x1_0000_0000

  // ---- Bits ----

  predicate TestBit(m: bv8, k: int)
    requires 0 <= k < 8
  {
    m & ((1 as bv8) << k) != 0
  }

  function WithBit(m: bv8, k: int): bv8
    requires 0 <= k < 8
  {
    m | ((1 as bv8) << k)
  }

  lemma WithBitSets(m: bv8, k: int, j: int)
    requires 0 <= k < 8 && 0 <= j < 8
    ensures TestBit(WithBit(m, k), j) <==> j == k || TestBit(m, j)
  {
    BitCases(k);
    BitCases(j);
  }

  lemma BitCases(k: int)
    requires 0 <= k < 8
    ensures k == 0 || k == 1 || k == 2 || k == 3 || k == 4 || k == 5 || k == 6 || k == 7
    ensures (1 as bv8) << k == (if k == 0 then 1 else if k == 1 then 2 else if k == 2 then 4 else if k == 3 then 8
                                else if k == 4 then 16 else if k == 5 then 32 else if k == 6 then 64 else 128)
  {}

  function WithoutBit(m: bv8, k: int): bv8
    requires 0 <= k < 8
  {
    m & !((1 as bv8) << k)
  }

  lemma WithoutBitClears(m: bv8, k: int, j: int)
    requires 0 <= k < 8 && 0 <= j < 8
    ensures TestBit(WithoutBit(m, k), j) <==> j != k && TestBit(m, j)
  {
    BitCases(k);
    BitCases(j);
  }

  // ---- Insertion into the page table ----

  /** Page numbers in ascending order, then unused entries. */
  ghost predicate SortedPages(pages: seq<int>, num: int) {
    && |pages| == MAX_PARTIAL && 0 <= num <= MAX_PARTIAL
    && (forall i, j :: 0 <= i < j < num ==> pages[i] < pages[j])
    && (forall i :: 0 <= i < num ==> 0 <= pages[i] < PAGES)
    && (forall i :: num <= i < MAX_PARTIAL ==> pages[i] == NO_PAGE)
  }

  /** memmove: n elements from "src" on are copied to "dst" on. */
  function Moved<T>(s: seq<T>, dst: nat, src: nat, n: nat): (r: seq<T>)
    requires dst + n <= |s| && src + n <= |s|
    ensures |r| == |s|
  {
    s[..dst] + s[src..src + n] + s[dst + n..]
  }

  /** The table after the insertion the code performs at "index" in a table of "num" entries. */
  function InsertedAsWritten(pages: seq<int>, num: nat, index: nat, page: int): (r: seq<int>)
    requires index <= num < |pages|
    ensures |r| == |pages|
  {
    Moved(pages, index, index + 1, num - index)[index := page]
  }

  /** The insertion that keeps the table sorted: the same with the two ends of the move exchanged. */
  function InsertedInOrder(pages: seq<int>, num: nat, index: nat, page: int): (r: seq<int>)
    requires index <= num < |pages|
    ensures |r| == |pages|
  {
    Moved(pages, index + 1, index, num - index)[index := page]
  }

  /** The entries from "index" on moved up, as was meant, or down, as it is done. */
  function ShiftedFrom<T>(s: seq<T>, num: nat, index: nat, intended: bool): (r: seq<T>)
    requires index <= num < |s|
    ensures |r| == |s|
  {
    if intended then Moved(s, index + 1, index, num - index) else Moved(s, index, index + 1, num - index)
  }

  /** The insertion the code was meant to perform, or the one it does perform. */
  function Inserted(pages: seq<int>, num: nat, index: nat, page: int, intended: bool): (r: seq<int>)
    requires index <= num < |pages|
    ensures |r| == |pages|
  {
    ShiftedFrom(pages, num, index, intended)[index := page]
  }

  function EmptyRow(): (r: seq<bv8>)
    ensures |r| == PAGE_SIZE / 8 && forall i :: 0 <= i < |r| ==> r[i] == 0
  {
    seq(PAGE_SIZE / 8, _ => 0)
  }

  /** The same for the bitmaps. */
  function RowInserted(bits: seq<seq<bv8>>, num: nat, index: nat, intended: bool): (r: seq<seq<bv8>>)
    requires index <= num < |bits|
    ensures |r| == |bits|
  {
    ShiftedFrom(bits, num, index, intended)[index := EmptyRow()]
  }

  lemma RowsShifted(bits: seq<seq<bv8>>, num: nat, index: nat, intended: bool)
    requires |bits| == MAX_PARTIAL && index <= num < MAX_PARTIAL
    requires forall i :: 0 <= i < MAX_PARTIAL ==> |bits[i]| == PAGE_SIZE / 8
    ensures forall i :: 0 <= i < MAX_PARTIAL ==> |ShiftedFrom(bits, num, index, intended)[i]| == PAGE_SIZE / 8
  {}

  ghost predicate IsSlot(pages: seq<int>, num: int, index: int, page: int)
    requires |pages| >= num
  {
    && 0 <= index <= num
    && (forall i :: 0 <= i < index ==> pages[i] < page) && (forall i :: index <= i < num ==> page < pages[i])
  }

  lemma InOrderAt(pages: seq<int>, num: nat, index: nat, page: int, i: nat)
    requires |pages| == MAX_PARTIAL && index <= num < MAX_PARTIAL && i < MAX_PARTIAL
    ensures InsertedInOrder(pages, num, index, page)[i] ==
            if i < index then pages[i] else if i == index then page else if i <= num then pages[i - 1] else pages[i]
  {}

  lemma InOrderMembers(pages: seq<int>, num: nat, index: nat, page: int)
    requires |pages| == MAX_PARTIAL && index <= num < MAX_PARTIAL
    ensures forall p :: p in InsertedInOrder(pages, num, index, page)[..num + 1] <==> p == page || p in pages[..num]
  {
    var r := InsertedInOrder(pages, num, index, page);
    forall i | 0 <= i < num + 1 ensures r[i] == (pages[..index] + [page] + pages[index..num])[i] {
      InOrderAt(pages, num, index, page, i);
    }
    assert r[..num + 1] == pages[..index] + [page] + pages[index..num];
    assert pages[..num] == pages[..index] + pages[index..num];
  }

  /** Moving the tail up keeps the table sorted, and adds exactly the new page. */
  lemma InOrderKeepsSorted(pages: seq<int>, num: nat, index: nat, page: int)
    requires SortedPages(pages, num) && num < MAX_PARTIAL && 0 <= page < PAGES && IsSlot(pages, num, index, page)
    ensures SortedPages(InsertedInOrder(pages, num, index, page), num + 1)
    ensures forall p :: p in InsertedInOrder(pages, num, index, page)[..num + 1] <==> p == page || p in pages[..num]
  {
    hide InsertedInOrder;
    InOrderMembers(pages, num, index, page);
    var r := InsertedInOrder(pages, num, index, page);
    forall i, j | 0 <= i < j < num + 1 ensures r[i] < r[j] {
      InOrderAt(pages, num, index, page, i);
      InOrderAt(pages, num, index, page, j);
    }
    forall i | 0 <= i < num + 1 ensures 0 <= r[i] < PAGES { InOrderAt(pages, num, index, page, i); }
    forall i | num + 1 <= i < MAX_PARTIAL ensures r[i] == NO_PAGE { InOrderAt(pages, num, index, page, i); }
  }

  /** The code moves the tail down instead, which is the same if and only if there is no tail: otherwise the page that
      stood at the insertion point is lost. */
  lemma AsWrittenIsRight(pages: seq<int>, num: nat, index: nat, page: int)
    requires SortedPages(pages, num) && num < MAX_PARTIAL && 0 <= page < PAGES && IsSlot(pages, num, index, page)
    ensures InsertedAsWritten(pages, num, index, page) == InsertedInOrder(pages, num, index, page) <==> index == num
    ensures index < num ==> pages[index] in pages[..num] && pages[index] !in InsertedAsWritten(pages, num, index, page)
  {
    var r := InsertedAsWritten(pages, num, index, page);
    assert forall i :: 0 <= i < MAX_PARTIAL ==>
      r[i] == (if i < index then pages[i] else if i == index then page else if i < num then pages[i + 1] else pages[i]);
    if index == num {
      assert r == InsertedInOrder(pages, num, index, page);
    } else {
      assert pages[..num][index] == pages[index];
      var q := InsertedInOrder(pages, num, index, page);
      assert q[index + 1] == pages[index];
    }
  }

  // ---- Regions ----

  predicate InRegion(base: int, top: int, a: int) { base <= a < top }

  ghost function Region(base: int, top: int): iset<int> { iset a | InRegion(base, top, a) }

  predicate Belongs(base: int, size: int, a: int) { 0 <= a < WORD && (a - base) % WORD < size }

  /** The addresses of a region of "size" bytes from "base" on, in 32-bit arithmetic. */
  ghost function Wanted(base: int, size: int): iset<int> { iset a | Belongs(base, size, a) }

  /** min((base & ~MASK) + PAGE_SIZE, top) in 32-bit arithmetic. */
  function FirstTop(base: nat, top: nat): nat {
    var next := (base - base % PAGE_SIZE + PAGE_SIZE) % WORD;
    if next < top then next else top
  }

  /** Where the marking loop stops that is to mark the page of "start" up to "end": the offset of the end in the page is
      computed in 32-bit arithmetic. */
  function EndOf(start: nat, end: nat): nat {
    start / PAGE_SIZE * PAGE_SIZE + (end - start / PAGE_SIZE * PAGE_SIZE) % WORD
  }

  /** The region starts inside the last page. */
  predicate StartsLate(base: int) { base % PAGE_SIZE != 0 && base >= WORD - PAGE_SIZE }

  /** The region wraps around into a page before its first, which it starts inside: the marking loop leaves the
      bitmap. */
  predicate Overruns(base: int, size: int) {
    base % PAGE_SIZE != 0 && !StartsLate(base) && base + size >= WORD && base + size - WORD < base - base % PAGE_SIZE
  }

  /** What is marked otherwise. */
  ghost function Marked(base: int, size: int): iset<int> {
    var top := (base + size) % WORD;
    if StartsLate(base) then Region(base, WORD) + Region(0, top)
    else if base + size < WORD then Region(base, top)
    else if base % PAGE_SIZE == 0 then Region(top - top % PAGE_SIZE, top)
    else iset{}
  }

  /** Exactly the region is marked if and only if it ends before the address space does, or, for a region that starts
      inside the last page, if it does not. */
  lemma RegionExact(base: int, size: int)
    requires 0 <= base < WORD && 0 <= size < WORD
    ensures !Overruns(base, size) && Marked(base, size) == Wanted(base, size) <==>
            if StartsLate(base) then base + size >= WORD else base + size < WORD
  {
    forall a | 0 <= a < WORD ensures Belongs(base, size, a) <==> (base <= a < base + size || a < base + size - WORD) {
      WrappedDistance(base, a);
    }
    if StartsLate(base) && base + size < WORD {
      assert 0 in Marked(base, size) && 0 !in Wanted(base, size);
    } else if !StartsLate(base) && base + size >= WORD {
      assert base in Wanted(base, size);
      assert base !in Marked(base, size);
    } else {
      assert Marked(base, size) == Wanted(base, size);
    }
  }

  lemma WrappedDistance(base: int, a: int)
    requires 0 <= base < WORD && 0 <= a < WORD
    ensures (a - base) % WORD == if a >= base then a - base else a - base + WORD
  {}

  /** A region that starts inside a page: the part in that page, and what is left after it. */
  lemma FirstPart(base: nat, size: nat)
    requires base < WORD && size < WORD && base % PAGE_SIZE != 0
    ensures var top := (base + size) % WORD;
      var mid := FirstTop(base, top);
      && mid < WORD && (Overruns(base, size) <==> EndOf(base, mid) > (base / PAGE_SIZE + 1) * PAGE_SIZE)
      && (!Overruns(base, size) && mid == top ==> Marked(base, size) == Region(base, EndOf(base, mid)))
      && (!Overruns(base, size) && mid != top ==>
            && mid % PAGE_SIZE == 0 && (StartsLate(base) || base / PAGE_SIZE < top / PAGE_SIZE)
            && Marked(base, size) == Region(base, EndOf(base, mid))
                                     + (Region(top - top % PAGE_SIZE, top) + Region(mid / PAGE_SIZE * PAGE_SIZE,
                                         top / PAGE_SIZE * PAGE_SIZE)))
  {
    var page, top := base / PAGE_SIZE, (base + size) % WORD;
    var mid := FirstTop(base, top);
    assert base - base % PAGE_SIZE == page * PAGE_SIZE;
    if StartsLate(base) {
      assert page == PAGES - 1 && mid == 0 && EndOf(base, mid) == WORD;
    } else {
      assert page < PAGES - 1;
      WrappedDistance(page * PAGE_SIZE, mid);
    }
  }

  /** The rest: the part in the last page, and whole pages. */
  lemma WholePages(base: nat, size: nat)
    requires base < WORD && size < WORD && base % PAGE_SIZE == 0
    ensures var top := (base + size) % WORD;
      !Overruns(base, size)
      && Marked(base, size)
           == Region(top - top % PAGE_SIZE, top) + Region(base / PAGE_SIZE * PAGE_SIZE, top / PAGE_SIZE * PAGE_SIZE)
  {}

  /** A region inside one page. */
  lemma OnePage(base: nat, size: nat)
    requires base + size < WORD && base % PAGE_SIZE != 0 && !StartsLate(base) && 0 < size
    requires base + size <= (base / PAGE_SIZE + 1) * PAGE_SIZE
    ensures FirstTop(base, base + size) == base + size == EndOf(base, base + size)
    ensures (base + size) % WORD == base + size
  {
    assert base - base % PAGE_SIZE == base / PAGE_SIZE * PAGE_SIZE;
    PageEnd(base, base + size);
  }

  /** A part that ends in the page it starts in. */
  lemma PageEnd(start: nat, end: nat)
    requires start <= end < WORD && end <= (start / PAGE_SIZE + 1) * PAGE_SIZE
    ensures EndOf(start, end) == end
  {}

  // ---- What the tables record ----

  lemma NoBits(k: int)
    requires 0 <= k < 8
    ensures !TestBit(0, k)
  {
    BitCases(k);
  }

  /** The memmove of an insertion: n elements move from index + 1 on to index on. */
  method MoveDown<T>(a: array<T>, index: nat, n: nat)
    requires index + n <= a.Length && (n > 0 ==> index + n < a.Length)
    modifies a
    ensures n == 0 ==> a[..] == old(a[..])
    ensures n > 0 ==> a[..] == Moved(old(a[..]), index, index + 1, n)
  {
    for k := 0 to n
      invariant forall i :: 0 <= i < a.Length ==> a[i] == if index <= i < index + k then old(a[i + 1]) else old(a[i])
    {
      a[index + k] := a[index + k + 1];
    }
  }

  /** The move in the other direction. */
  method MoveUp<T>(a: array<T>, index: nat, n: nat)
    requires index + n < a.Length
    modifies a
    ensures a[..] == Moved(old(a[..]), index + 1, index, n)
  {
    var k := n;
    while k > 0
      invariant 0 <= k <= n
      invariant forall i :: 0 <= i < a.Length ==>
                  a[i] == if index + k < i <= index + n then old(a[i - 1]) else old(a[i])
    {
      a[index + k] := a[index + k - 1];
      k := k - 1;
    }
  }

  /** The flag of a page: partly (false) or entirely (true) read-only. */
  predicate PageFlag(flags: seq<bv8>, page: int, full: bool)
    requires |flags| == PAGES / 4 && 0 <= page < PAGES
  {
    TestBit(flags[page / 4], 2 * (page % 4) + if full then 1 else 0)
  }

  /** Address a is marked in entry i of the page table. */
  predicate InEntry(pages: seq<int>, bits: seq<seq<bv8>>, i: int, a: int)
    requires 0 <= a < WORD
  {
    && 0 <= i < |pages| && i < |bits| && pages[i] == a / PAGE_SIZE && |bits[i]| == PAGE_SIZE / 8
    && TestBit(bits[i][a % PAGE_SIZE / 8], a % PAGE_SIZE % 8)
  }

  ghost predicate Stored(flags: seq<bv8>, pages: seq<int>, bits: seq<seq<bv8>>, num: int, a: int)
    requires |flags| == PAGES / 4 && 0 <= a < WORD
  {
    PageFlag(flags, a / PAGE_SIZE, true) || exists i :: 0 <= i < num && InEntry(pages, bits, i, a)
  }

  /** The table is sorted and padded, every page in it carries a flag, and every page flagged as partial is in it. */
  ghost predicate TablesOK(flags: seq<bv8>, pages: seq<int>, bits: seq<seq<bv8>>, num: int) {
    && |flags| == PAGES / 4 && |bits| == MAX_PARTIAL && SortedPages(pages, num)
    && (forall i :: 0 <= i < MAX_PARTIAL ==> |bits[i]| == PAGE_SIZE / 8)
    && (forall i :: 0 <= i < num ==> PageFlag(flags, pages[i], false) || PageFlag(flags, pages[i], true))
    && (forall p :: 0 <= p < PAGES && PageFlag(flags, p, false) ==> p in pages[..num])
  }

  /** The map records exactly the addresses in "contents". */
  ghost predicate Records(flags: seq<bv8>, pages: seq<int>, bits: seq<seq<bv8>>, num: int, contents: iset<int>)
    requires |flags| == PAGES / 4
  {
    && (forall a :: 0 <= a < WORD ==> (a in contents <==> Stored(flags, pages, bits, num, a)))
    && (forall a :: a in contents ==> 0 <= a < WORD)
  }

  lemma OneEntry(pages: seq<int>, num: int, i: int, j: int)
    requires SortedPages(pages, num) && 0 <= i < num && 0 <= j < num && pages[i] == pages[j]
    ensures i == j
  {}

  /** Setting the partial flag of a page that has been inserted in order with an empty bitmap. */
  lemma PageInserted(
    flags: seq<bv8>, pages: seq<int>, bits: seq<seq<bv8>>, num: int, contents: iset<int>, index: int, page: int)
    requires TablesOK(flags, pages, bits, num) && Records(flags, pages, bits, num, contents)
    requires num < MAX_PARTIAL && 0 <= page < PAGES && page !in pages[..num] && IsSlot(pages, num, index, page)
    ensures var flags' := flags[page / 4 := WithBit(flags[page / 4], 2 * (page % 4))];
      var pages', bits' := InsertedInOrder(pages, num, index, page), RowInserted(bits, num, index, true);
      TablesOK(flags', pages', bits', num + 1) && Records(flags', pages', bits', num + 1, contents)
  {
    hide TestBit, WithBit, InsertedInOrder, RowInserted, InEntry;
    var flags' := flags[page / 4 := WithBit(flags[page / 4], 2 * (page % 4))];
    var pages', bits' := InsertedInOrder(pages, num, index, page), RowInserted(bits, num, index, true);
    PartialFlagSet(flags, page);
    InOrderKeepsSorted(pages, num, index, page);
    forall i | 0 <= i < MAX_PARTIAL ensures |bits'[i]| == PAGE_SIZE / 8 { RowAt(bits, num, index, i); }
    forall i | 0 <= i < num + 1 ensures PageFlag(flags', pages'[i], false) || PageFlag(flags', pages'[i], true) {
      InOrderAt(pages, num, index, page, i);
    }
    forall a | 0 <= a < WORD ensures Stored(flags', pages', bits', num + 1, a) <==> Stored(flags, pages, bits, num, a) {
      StoredShifts(flags, flags', pages, bits, num, index, page, a);
    }
  }

  lemma RowAt(bits: seq<seq<bv8>>, num: nat, index: nat, i: nat)
    requires |bits| == MAX_PARTIAL && index <= num < MAX_PARTIAL && i < MAX_PARTIAL
    ensures RowInserted(bits, num, index, true)[i] ==
            if i < index then bits[i] else if i == index then EmptyRow() else if i <= num then bits[i - 1] else bits[i]
  {}

  /** Entries move with their bitmaps, and the new entry holds nothing. */
  lemma StoredShifts(
    flags: seq<bv8>, flags': seq<bv8>, pages: seq<int>, bits: seq<seq<bv8>>, num: int, index: int, page: int, a: int)
    requires |flags| == |flags'| == PAGES / 4 && |pages| == |bits| == MAX_PARTIAL
    requires 0 <= index <= num < MAX_PARTIAL && 0 <= a < WORD
    requires PageFlag(flags', a / PAGE_SIZE, true) <==> PageFlag(flags, a / PAGE_SIZE, true)
    ensures Stored(flags', InsertedInOrder(pages, num, index, page), RowInserted(bits, num, index, true), num + 1, a)
       <==> Stored(flags, pages, bits, num, a)
  {
    hide TestBit, InsertedInOrder, RowInserted, PageFlag;
    var pages', bits' := InsertedInOrder(pages, num, index, page), RowInserted(bits, num, index, true);
    forall i | 0 <= i < num + 1
      ensures InEntry(pages', bits', i, a) <==> i != index && InEntry(pages, bits, if i < index then i else i - 1, a)
    {
      InOrderAt(pages, num, index, page, i);
      RowAt(bits, num, index, i);
      NoBits(a % PAGE_SIZE % 8);
    }
    forall i | 0 <= i < num && InEntry(pages, bits, i, a)
      ensures InEntry(pages', bits', if i < index then i else i + 1, a) {}
  }

  /** Row "index" has additionally the bits from "start" to "end"; the other rows are as before. */
  ghost predicate RowMarked(bits: seq<seq<bv8>>, bits': seq<seq<bv8>>, index: int, start: int, end: int) {
    && 0 <= index < |bits| == |bits'| && |bits[index]| == |bits'[index]| == PAGE_SIZE / 8
    && bits' == bits[index := bits'[index]]
    && forall o :: 0 <= o < PAGE_SIZE ==>
         (TestBit(bits'[index][o / 8], o % 8) <==> start <= o < end || TestBit(bits[index][o / 8], o % 8))
  }

  lemma RowStep(bits: seq<seq<bv8>>, row: seq<bv8>, row': seq<bv8>, index: int, start: int, address: int)
    requires 0 <= index < |bits| && RowMarked(bits, bits[index := row], index, start, address)
    requires 0 <= start <= address < PAGE_SIZE && |row| == PAGE_SIZE / 8
    requires row' == row[address / 8 := WithBit(row[address / 8], address % 8)]
    ensures RowMarked(bits, bits[index := row'], index, start, address + 1)
  {
    hide TestBit, WithBit;
    var after := bits[index := row'];
    forall o | 0 <= o < PAGE_SIZE
      ensures TestBit(after[index][o / 8], o % 8) <==> start <= o < address + 1 || TestBit(bits[index][o / 8], o % 8)
    {
      assert TestBit(bits[index := row][index][o / 8], o % 8) <==>
          start <= o < address || TestBit(bits[index][o / 8], o % 8);
      WithBitSets(row[address / 8], address % 8, o % 8);
    }
  }

  lemma EntryMarked(
    pages: seq<int>, bits: seq<seq<bv8>>, bits': seq<seq<bv8>>, index: int, start: int, end: int, i: int, a: int)
    requires RowMarked(bits, bits', index, start, end) && 0 <= start <= end <= PAGE_SIZE && 0 <= a < WORD
    requires |pages| == |bits| && 0 <= i < |pages| && (pages[i] == pages[index] ==> i == index)
    ensures InEntry(pages, bits', i, a) <==>
            InEntry(pages, bits, i, a)
                || (i == index && InRegion(pages[index] * PAGE_SIZE + start, pages[index] * PAGE_SIZE + end, a))
  {
    hide TestBit;
    var o := a % PAGE_SIZE;
    assert a == a / PAGE_SIZE * PAGE_SIZE + o;
    if i == index {
      assert TestBit(bits'[index][o / 8], o % 8) <==> start <= o < end || TestBit(bits[index][o / 8], o % 8);
      InPage(a, pages[index], start, end);
    } else {
      assert bits'[i] == bits[i];
    }
  }

  lemma InPage(a: int, page: int, start: int, end: int)
    requires 0 <= start <= end <= PAGE_SIZE && 0 <= a
    ensures InRegion(page * PAGE_SIZE + start, page * PAGE_SIZE + end, a) <==>
              a / PAGE_SIZE == page && start <= a % PAGE_SIZE < end
  {}

  lemma BytesMarked(
    flags: seq<bv8>, pages: seq<int>, bits: seq<seq<bv8>>, bits': seq<seq<bv8>>, num: int, contents: iset<int>,
    index: int,
    start: int, end: int)
    requires TablesOK(flags, pages, bits, num) && Records(flags, pages, bits, num, contents) && 0 <= index < num
    requires 0 <= start <= end <= PAGE_SIZE && RowMarked(bits, bits', index, start, end)
    ensures TablesOK(flags, pages, bits', num)
    ensures Records(flags, pages, bits', num,
                    contents + Region(pages[index] * PAGE_SIZE + start, pages[index] * PAGE_SIZE + end))
  {
    hide TestBit, InEntry, RowMarked, InRegion;
    RowsKept(bits, bits', index, start, end);
    var base, top := pages[index] * PAGE_SIZE + start, pages[index] * PAGE_SIZE + end;
    forall a | 0 <= a < WORD
      ensures Stored(flags, pages, bits', num, a) <==> InRegion(base, top, a) || Stored(flags, pages, bits, num, a)
    {
      forall i | 0 <= i < num
        ensures InEntry(pages, bits', i, a) <==> InEntry(pages, bits, i, a) || (i == index && InRegion(base, top, a))
      {
        EntryMarked(pages, bits, bits', index, start, end, i, a);
      }
      assert InRegion(base, top, a) ==> InEntry(pages, bits', index, a);
    }
    forall a | InRegion(base, top, a) ensures 0 <= a < WORD { RegionInWord(base, top, a, pages[index], start, end); }
  }

  lemma RegionInWord(base: int, top: int, a: int, page: int, start: int, end: int)
    requires base == page * PAGE_SIZE + start && top == page * PAGE_SIZE + end && 0 <= page < PAGES && 0 <= start
    requires end <= PAGE_SIZE
    requires InRegion(base, top, a)
    ensures 0 <= a < WORD
  {}

  lemma RowsKept(bits: seq<seq<bv8>>, bits': seq<seq<bv8>>, index: int, start: int, end: int)
    requires RowMarked(bits, bits', index, start, end)
    ensures |bits'| == |bits| && forall i :: 0 <= i < |bits| ==> |bits'[i]| == |bits[i]|
  {
    hide TestBit;
  }

  lemma PartialFlagSet(flags: seq<bv8>, page: int)
    requires |flags| == PAGES / 4 && 0 <= page < PAGES
    ensures var flags' := flags[page / 4 := WithBit(flags[page / 4], 2 * (page % 4))];
      forall p :: 0 <= p < PAGES ==>
        (PageFlag(flags', p, true) <==> PageFlag(flags, p, true))
            && (PageFlag(flags', p, false) <==> p == page || PageFlag(flags, p, false))
  {
    hide TestBit, WithBit;
    var flags' := flags[page / 4 := WithBit(flags[page / 4], 2 * (page % 4))];
    forall p | 0 <= p < PAGES
      ensures PageFlag(flags', p, true) <==> PageFlag(flags, p, true)
      ensures PageFlag(flags', p, false) <==> p == page || PageFlag(flags, p, false)
    {
      WithBitSets(flags[page / 4], 2 * (page % 4), 2 * (p % 4));
      WithBitSets(flags[page / 4], 2 * (page % 4), 2 * (p % 4) + 1);
    }
  }

  // ---- The map ----

  /** How an insertion changes the tables; the new entry's bitmap is what the marking loop then makes of it. */
  ghost predicate PageAdded(
    flags: seq<bv8>, pages: seq<int>, bits: seq<seq<bv8>>, num: int,
    flags': seq<bv8>, pages': seq<int>, bits': seq<seq<bv8>>, num': int, index: int, page: int, intended: bool)
  {
    && |flags| == PAGES / 4 && |pages| == |bits| == |bits'| == MAX_PARTIAL && 0 <= index <= num < MAX_PARTIAL
    && 0 <= page < PAGES
    && num' == num + 1 && pages' == Inserted(pages, num, index, page, intended)
    && bits' == RowInserted(bits, num, index, intended)[index := bits'[index]]
    && flags' == flags[page / 4 := WithBit(flags[page / 4], 2 * (page % 4))]
  }

  ghost predicate EntryAdded(
    flags: seq<bv8>, pages: seq<int>, bits: seq<seq<bv8>>, num: int,
    flags': seq<bv8>, pages': seq<int>, bits': seq<seq<bv8>>, num': int, page: int, intended: bool)
  {
    exists index ::
      |pages| >= num && IsSlot(pages, num, index, page)
      && PageAdded(flags, pages, bits, num, flags', pages', bits', num', index, page, intended)
  }

  predicate PagesAscend(pages: seq<int>, num: int)
    requires 0 <= num <= |pages|
  {
    forall i, j :: 0 <= i < j < num ==> pages[i] < pages[j]
  }

  /** The part of binrec_t that records read-only memory, with the insertion as the code has it or as it was meant. */
  class Handle {
    const intended: bool
    const flags: array<bv8>
    const pages: array<int>
    const bits: array<seq<bv8>>
    var num: int
    ghost var contents: iset<int>

    ghost predicate Shape()
      reads this, bits
    {
      && flags as object != bits && pages as object != bits
      && flags.Length == PAGES / 4 && pages.Length == bits.Length == MAX_PARTIAL && 0 <= num <= MAX_PARTIAL
      && forall i :: 0 <= i < MAX_PARTIAL ==> |bits[i]| == PAGE_SIZE / 8
    }

    ghost predicate Valid()
      reads this, flags, pages, bits
    {
      && Shape() && TablesOK(flags[..], pages[..], bits[..], num)
      && Records(flags[..], pages[..], bits[..], num, contents)
    }

    /** The initial state: nothing is read-only. */
    constructor (intended: bool)
      ensures Valid() && contents == iset{} && num == 0 && fresh(flags) && fresh(pages) && fresh(bits)
      ensures this.intended == intended && (forall i :: 0 <= i < flags.Length ==> flags[i] == 0)
      ensures forall i :: 0 <= i < pages.Length ==> pages[i] == NO_PAGE && bits[i] == EmptyRow()
    {
      this.intended := intended;
      flags := new bv8[PAGES / 4](_ => 0);
      pages := new int[MAX_PARTIAL](_ => NO_PAGE);
      bits := new seq<bv8>[MAX_PARTIAL](_ => EmptyRow());
      num := 0;
      contents := iset{};
      new;
      NothingStored(flags[..], pages[..], bits[..]);
    }

    /** lookup_partial_readonly_page. */
    method Lookup(page: int) returns (index: int)
      requires 0 <= num <= pages.Length
      ensures 0 <= index <= num
      ensures PagesAscend(pages[..], num) && page in pages[..num] ==> index < num && pages[index] == page
      ensures PagesAscend(pages[..], num) && page !in pages[..num] ==> IsSlot(pages[..], num, index, page)
    {
      var low, high := 0, num - 1;
      while low <= high
        invariant 0 <= low <= high + 1 <= num
        invariant PagesAscend(pages[..], num) ==> forall i :: 0 <= i < low ==> pages[i] < page
        invariant PagesAscend(pages[..], num) ==> forall i :: high < i < num ==> page < pages[i]
      {
        var mid := (low + high) / 2;
        if page == pages[mid] {
          assert pages[..num][mid] == page;
          return mid;
        } else if page < pages[mid] {
          high := mid - 1;
        } else {
          low := mid + 1;
        }
      }
      return low;
    }

    /** is_address_readonly, with assertions compiled out. */
    method IsAddressReadonly(a: int) returns (r: bool)
      requires Shape() && (num < MAX_PARTIAL || Valid()) && 0 <= a < WORD
      ensures Valid() ==> (r <==> a in contents)
      ensures PagesAscend(pages[..], num) && a / PAGE_SIZE !in pages[..num]
              && PageFlag(flags[..], a / PAGE_SIZE, false) && !PageFlag(flags[..], a / PAGE_SIZE, true) ==>
                exists i :: IsSlot(pages[..], num, i, a / PAGE_SIZE) && i < MAX_PARTIAL
                            && (r <==> TestBit(bits[i][a % PAGE_SIZE / 8], a % PAGE_SIZE % 8))
    {
      var page := a / PAGE_SIZE;
      if TestBit(flags[page / 4], 2 * (page % 4) + 1) {
        assert PageFlag(flags[..], page, true);
        return true;
      } else if TestBit(flags[page / 4], 2 * (page % 4)) {
        assert !PageFlag(flags[..], page, true) && PageFlag(flags[..], page, false);
        var index := Lookup(page);
        if Valid() {
          forall i | 0 <= i < num && InEntry(pages[..], bits[..], i, a)
            ensures i == index { OneEntry(pages[..], num, i, index); }
        }
        var offset := a % PAGE_SIZE;
        r := TestBit(bits[index][offset / 8], offset % 8);
        assert Valid() ==> (InEntry(pages[..], bits[..], index, a) <==> r);
      } else {
        assert !PageFlag(flags[..], page, true) && !PageFlag(flags[..], page, false);
        assert Valid() ==> forall i :: 0 <= i < num ==> pages[..][i] != page;
        return false;
      }
    }

    /** No table entry has to move for the page, or entries move the right way. */
    ghost predicate InOrder(page: int)
      requires 0 <= num <= pages.Length
      reads this, pages
    {
      intended || page in pages[..num] || forall p <- pages[..num] :: p < page
    }

    /** The two memmoves of an insertion. */
    method MoveEntries(index: int)
      requires Shape() && 0 <= index <= num < MAX_PARTIAL
      modifies pages, bits
      ensures pages[..] == ShiftedFrom(old(pages[..]), num, index, intended)
      ensures bits[..] == ShiftedFrom(old(bits[..]), num, index, intended)
    {
      ghost var pages0, bits0 := pages[..], bits[..];
      if intended {
        MoveUp(pages, index, num - index);
        MoveUp(bits, index, num - index);
      } else {
        MoveDown(pages, index, num - index);
        MoveDown(bits, index, num - index);
        if num == index { NothingMoved(pages0, index); NothingMoved(bits0, index); }
      }
    }

    /** The insertion of a page, with an empty bitmap. */
    method InsertPage(index: int, page: int)
      requires Shape() && 0 <= page < PAGES && 0 <= index <= num < MAX_PARTIAL
      modifies this`num, flags, pages, bits
      ensures Shape() && num == old(num) + 1 && pages[index] == page
      ensures PageAdded(old(flags[..]), old(pages[..]), old(bits[..]), old(num), flags[..], pages[..], bits[..], num,
                        index, page, intended)
      ensures bits[index] == EmptyRow()
    {
      hide TestBit, WithBit, ShiftedFrom;
      ghost var flags0, pages0, bits0 := flags[..], pages[..], bits[..];
      MoveEntries(index);
      ghost var pages1, bits1 := pages[..], bits[..];
      RowsShifted(bits0, num, index, intended);
      num := num + 1;
      pages[index] := page;
      bits[index] := seq(PAGE_SIZE / 8, _ => 0);
      flags[page / 4] := WithBit(flags[page / 4], 2 * (page % 4));
      assert bits[index] == EmptyRow();
      assert pages[..] == pages1[index := page] && bits[..] == bits1[index := EmptyRow()];
      assert flags[..] == flags0[page / 4 := WithBit(flags0[page / 4], 2 * (page % 4))];
      assert bits[..] == bits[..][index := bits[index]];
    }

    /** The marking loop of add_partial_readonly_page; start and end are offsets in the page of entry "index". */
    method MarkBytes(index: int, page: int, start: int, end: int)
      requires Shape() && 0 <= index < MAX_PARTIAL && 0 <= start <= end <= PAGE_SIZE
      modifies bits, this`contents
      ensures Shape() && RowMarked(old(bits[..]), bits[..], index, start, end)
      ensures contents == old(contents) + Region(page * PAGE_SIZE + start, page * PAGE_SIZE + end)
      ensures old(Valid()) && index < num && pages[index] == page ==> Valid()
    {
      hide TablesOK, Records, WithBit, TestBit;
      ghost var flags0, pages0, bits0 := flags[..], pages[..], bits[..];
      var address := start;
      assert bits0 == bits0[index := bits0[index]];
      while address < end
        invariant start <= address <= end && RowMarked(bits0, bits[..], index, start, address)
        invariant contents == old(contents)
        invariant flags[..] == flags0 && pages[..] == pages0 && Shape()
      {
        var row := bits[index];
        bits[index] := row[address / 8 := WithBit(row[address / 8], address % 8)];
        RowStep(bits0, row, bits[index], index, start, address);
        assert bits[..] == bits0[index := bits[index]];
        address := address + 1;
      }
      contents := contents + Region(page * PAGE_SIZE + start, page * PAGE_SIZE + end);
      if old(Valid()) && index < num && pages[index] == page {
        BytesMarked(flags[..], pages[..], bits0, bits[..], num, old(contents), index, start, end);
      }
    }

    /** add_partial_readonly_page, where a failed assertion has no effect: fails exactly when the page needs a table
        entry and none is free, and overruns the bitmap if the end it computes is not in the page. */
    method AddPartialPage(start: int, end: int) returns (ok: bool, overrun: bool)
      requires Shape() && 0 <= start < WORD && 0 <= end < WORD
      modifies this, flags, pages, bits
      ensures Shape() && num <= old(num) + 1 && !(ok && overrun)
      ensures contents == if ok then old(contents) + Region(start, EndOf(start, end)) else old(contents)
      ensures ok ==> EndOf(start, end) <= (start / PAGE_SIZE + 1) * PAGE_SIZE
      ensures old(Valid() && InOrder(start / PAGE_SIZE)) ==>
                && Valid() && (ok || overrun <==> start / PAGE_SIZE in old(pages[..num]) || old(num) < MAX_PARTIAL)
                && (if ok || overrun then overrun <==>
                     EndOf(start, end) > (start / PAGE_SIZE + 1) * PAGE_SIZE else num == MAX_PARTIAL)
                && forall p :: p in pages[..num] <==>
                     p in old(pages[..num]) || ((ok || overrun) && p == start / PAGE_SIZE)
      ensures old(SortedPages(pages[..], num) && num < MAX_PARTIAL && start / PAGE_SIZE !in pages[..num])
              && EndOf(start, end) <= (start / PAGE_SIZE + 1) * PAGE_SIZE ==>
                ok && EntryAdded(old(flags[..]), old(pages[..]), old(bits[..]), old(num),
                                 flags[..], pages[..], bits[..], num, start / PAGE_SIZE, intended)
    {
      hide TablesOK, Records, PageAdded, RowMarked, Inserted;
      ghost var flags0, pages0, bits0, num0, contents0 := flags[..], pages[..], bits[..], num, contents;
      ghost var good := Valid() && InOrder(start / PAGE_SIZE);
      if Valid() { TableSorted(flags0, pages0, bits0, num); }
      var page := start / PAGE_SIZE;
      var index := Lookup(page);
      if index == MAX_PARTIAL {
        return false, false;
      }
      if SortedPages(pages0, num) { SlotEntry(pages0, num, index, page); }
      if page != pages[index] {
        if pages[MAX_PARTIAL - 1] != NO_PAGE {
          if SortedPages(pages0, num) { LastUsed(pages0, num); }
          return false, false;
        }
        if SortedPages(pages0, num) { LastUnused(pages0, num); }
        if num == MAX_PARTIAL {
          return false, true;
        }
        InsertPage(index, page);
        if good {
          InsertedWell(flags0, pages0, bits0, num0, contents0, flags[..], pages[..], bits[..], num, index, page,
                       intended);
        }
      }
      ghost var bits1 := bits[..];
      var from, limit := start - page * PAGE_SIZE, (end - page * PAGE_SIZE) % WORD;
      if limit > PAGE_SIZE {
        return false, true;
      }
      if from <= limit {
        MarkBytes(index, page, from, limit);
      } else {
        assert Region(start, EndOf(start, end)) == iset{};
        NothingMarked(bits1, index);
      }
      if SortedPages(pages0, num0) && page !in pages0[..num0] {
        AddedAndMarked(flags0, pages0, bits0, num0, flags[..], pages[..], bits1, bits[..], num, index, page, intended,
                       from, if from <= limit then limit else from);
      }
      return true, false;
    }

    /** No table entry has to move for the region's first page, nor then for its last one. */
    ghost predicate RegionInOrder(base: int, size: int)
      requires 0 <= num <= pages.Length
      reads this, pages
    {
      var top := (base + size) % WORD;
      && (base % PAGE_SIZE != 0 ==> InOrder(base / PAGE_SIZE))
      && (top % PAGE_SIZE != 0 ==>
            if StartsLate(base) then intended || top / PAGE_SIZE in pages[..num] || top / PAGE_SIZE == base / PAGE_SIZE
            else InOrder(top / PAGE_SIZE))
    }

    /** The loop of binrec_add_readonly_region over whole pages. */
    method MarkPages(first: int, last: int)
      requires Shape() && 0 <= first && last <= PAGES
      modifies flags, this`contents
      ensures Shape() && contents == old(contents) + Region(first * PAGE_SIZE, last * PAGE_SIZE)
      ensures old(Valid()) ==> Valid()
      ensures first >= last ==> flags[..] == old(flags[..])
    {
      hide TablesOK, Records, WithBit, WithoutBit, TestBit;
      ghost var flags0 := flags[..];
      var page := first;
      while page < last
        invariant first <= page && (page <= last || page == first) && PagesMarked(flags0, flags[..], first, page)
        invariant contents == old(contents) && (first >= last ==> flags[..] == flags0)
      {
        ghost var before := flags[..];
        flags[page / 4] := WithoutBit(flags[page / 4], 2 * (page % 4));
        flags[page / 4] := WithBit(flags[page / 4], 2 * (page % 4) + 1);
        assert flags[..]
            == before[page / 4 := WithBit(WithoutBit(before[page / 4], 2 * (page % 4)), 2 * (page % 4) + 1)];
        PageStep(flags0, before, flags[..], first, page);
        page := page + 1;
      }
      if old(Valid()) { PagesRecorded(flags0, flags[..], pages[..], bits[..], num, contents, first, page); }
      assert Region(first * PAGE_SIZE, page * PAGE_SIZE) == Region(first * PAGE_SIZE, last * PAGE_SIZE);
      contents := contents + Region(first * PAGE_SIZE, last * PAGE_SIZE);
    }

    /** binrec_add_readonly_region, for any region.  The map then holds what it held and what the call marks, which is
        the region or not (see RegionExact), unless an entry has to be inserted before others the way the code does
        it; a call that fails for lack of a table entry has marked a part of that. */
    method AddRegion(base0: int, size: int) returns (ok: bool, overrun: bool)
      requires Shape() && 0 <= base0 < WORD && 0 <= size < WORD
      modifies this, flags, pages, bits
      ensures Shape() && num <= old(num) + 2 && !(ok && overrun)
      ensures ok ==> !Overruns(base0, size) && contents == old(contents) + Marked(base0, size)
      ensures !ok && !Overruns(base0, size) ==> old(contents) <= contents <= old(contents) + Marked(base0, size)
      ensures Overruns(base0, size) ==> contents == old(contents)
      ensures old(Valid() && RegionInOrder(base0, size)) ==>
                Valid() && (overrun ==> Overruns(base0, size)) && (!ok && !overrun ==> num == MAX_PARTIAL)
      ensures old(Valid() && RegionInOrder(base0, size) && num < MAX_PARTIAL) && Overruns(base0, size) ==> overrun
      ensures old(SortedPages(pages[..], num) && num < MAX_PARTIAL && base0 / PAGE_SIZE !in pages[..num])
              && base0 % PAGE_SIZE != 0 && size > 0 && base0 + size <= (base0 / PAGE_SIZE + 1) * PAGE_SIZE
              && base0 + size < WORD
              && !StartsLate(base0) ==>
                ok && EntryAdded(old(flags[..]), old(pages[..]), old(bits[..]), old(num),
                                 flags[..], pages[..], bits[..], num, base0 / PAGE_SIZE, intended)
    {
      hide TablesOK, Records, EntryAdded, SortedPages, FirstTop, EndOf, Region, Marked, Overruns;
      var base, top := base0, (base0 + size) % WORD;
      if base % PAGE_SIZE != 0 {
        var pageTop := FirstTop(base, top);
        FirstPart(base, size);
        if 0 < size && base + size < WORD && !StartsLate(base) && base + size <= (base / PAGE_SIZE + 1) * PAGE_SIZE {
          OnePage(base, size);
        }
        ok, overrun := AddPartialPage(base, pageTop);
        if !ok { return; }
        base := pageTop;
        if base == top { return; }
      } else {
        WholePages(base, size);
      }
      if top % PAGE_SIZE != 0 {
        var pageBase := top - top % PAGE_SIZE;
        PageEnd(pageBase, top);
        ok, overrun := AddPartialPage(pageBase, top);
        if !ok { return; }
      }
      EmptyEnd(top);
      MarkPages(base / PAGE_SIZE, top / PAGE_SIZE);
      assert contents == old(contents) + Marked(base0, size);
      return true, false;
    }

    /** binrec_clear_readonly_regions. */
    method Clear()
      requires Shape()
      modifies this, flags, pages
      ensures Valid() && contents == iset{} && num == 0
    {
      forall i | 0 <= i < flags.Length { flags[i] := 0; }
      forall i | 0 <= i < pages.Length { pages[i] := NO_PAGE; }
      num := 0;
      contents := iset{};
      NothingStored(flags[..], pages[..], bits[..]);
    }
  }

  lemma NothingMoved<T>(s: seq<T>, index: nat)
    requires index < |s|
    ensures s == Moved(s, index, index + 1, 0)
  {}

  /** An insertion in order, or behind everything, keeps the tables truthful. */
  lemma InsertedWell(
    flags: seq<bv8>, pages: seq<int>, bits: seq<seq<bv8>>, num: int, contents: iset<int>,
    flags': seq<bv8>, pages': seq<int>, bits': seq<seq<bv8>>, num': int, index: int, page: int, intended: bool)
    requires TablesOK(flags, pages, bits, num) && Records(flags, pages, bits, num, contents)
    requires PageAdded(flags, pages, bits, num, flags', pages', bits', num', index, page, intended)
    requires page !in pages[..num] && IsSlot(pages, num, index, page) && bits'[index] == EmptyRow()
    requires intended || forall p <- pages[..num] :: p < page
    ensures TablesOK(flags', pages', bits', num') && Records(flags', pages', bits', num', contents)
    ensures forall p :: p in pages'[..num'] <==> p in pages[..num] || p == page
  {
    hide TablesOK, Records, InsertedInOrder, InsertedAsWritten, RowInserted, WithBit, TestBit;
    TableSizes(flags, pages, bits, num);
    TableSorted(flags, pages, bits, num);
    InsertedIs(pages, num, index, page);
    if !intended {
      SlotIsLast(pages, num, index, page);
      AsWrittenIsRight(pages, num, index, page);
      RowsAgree(bits, num);
    }
    RowAt(bits, num, index, index);
    assert bits' == RowInserted(bits, num, index, true);
    PageInserted(flags, pages, bits, num, contents, index, page);
    InOrderKeepsSorted(pages, num, index, page);
  }

  lemma InsertedIs(pages: seq<int>, num: nat, index: nat, page: int)
    requires index <= num < |pages|
    ensures Inserted(pages, num, index, page, true) == InsertedInOrder(pages, num, index, page)
    ensures Inserted(pages, num, index, page, false) == InsertedAsWritten(pages, num, index, page)
  {}

  lemma RowsAgree(bits: seq<seq<bv8>>, num: nat)
    requires num < |bits|
    ensures RowInserted(bits, num, num, false) == RowInserted(bits, num, num, true)
  {}

  lemma AddedAndMarked(
    flags: seq<bv8>, pages: seq<int>, bits: seq<seq<bv8>>, num: int, flags': seq<bv8>, pages': seq<int>,
    bits1: seq<seq<bv8>>, bits': seq<seq<bv8>>, num': int, index: int, page: int, intended: bool, start: int, end: int)
    requires PageAdded(flags, pages, bits, num, flags', pages', bits1, num', index, page, intended)
    requires RowMarked(bits1, bits', index, start, end)
    ensures PageAdded(flags, pages, bits, num, flags', pages', bits', num', index, page, intended)
  {
    hide Inserted, RowInserted, TestBit, WithBit;
  }

  lemma EmptyEnd(top: int)
    ensures top % PAGE_SIZE == 0 ==> Region(top - top % PAGE_SIZE, top) == iset{}
  {}

  lemma NothingMarked(bits: seq<seq<bv8>>, index: int)
    requires 0 <= index < |bits| && |bits[index]| == PAGE_SIZE / 8
    ensures forall from :: RowMarked(bits, bits, index, from, from)
  {
    hide TestBit;
  }

  lemma TableSizes(flags: seq<bv8>, pages: seq<int>, bits: seq<seq<bv8>>, num: int)
    requires TablesOK(flags, pages, bits, num)
    ensures |flags| == PAGES / 4 && |pages| == |bits| == MAX_PARTIAL && 0 <= num <= MAX_PARTIAL
  {}

  lemma TableSorted(flags: seq<bv8>, pages: seq<int>, bits: seq<seq<bv8>>, num: int)
    requires TablesOK(flags, pages, bits, num)
    ensures SortedPages(pages, num)
  {}

  lemma SlotEntry(pages: seq<int>, num: int, index: int, page: int)
    requires SortedPages(pages, num) && 0 <= page < PAGES && 0 <= index <= num && index < MAX_PARTIAL
    requires page in pages[..num] ==> index < num && pages[index] == page
    requires page !in pages[..num] ==> IsSlot(pages, num, index, page)
    ensures pages[index] == page <==> page in pages[..num]
  {}

  lemma LastUsed(pages: seq<int>, num: int)
    requires SortedPages(pages, num) && pages[MAX_PARTIAL - 1] != NO_PAGE
    ensures num == MAX_PARTIAL
  {}

  lemma LastUnused(pages: seq<int>, num: int)
    requires SortedPages(pages, num) && pages[MAX_PARTIAL - 1] == NO_PAGE
    ensures num < MAX_PARTIAL
  {}

  lemma SlotIsLast(pages: seq<int>, num: int, index: int, page: int)
    requires SortedPages(pages, num) && page !in pages[..num] && IsSlot(pages, num, index, page)
    requires forall p <- pages[..num] :: p < page
    ensures index == num && IsSlot(pages, num, num, page)
  {
    forall i | 0 <= i < num ensures pages[i] < page { assert pages[..num][i] in pages[..num]; }
    var probe := pages[if index < MAX_PARTIAL then index else 0];
  }

  /** Pages first to last - 1 are flagged as entirely read-only, and no longer as partly. */
  ghost predicate PagesMarked(flags: seq<bv8>, flags': seq<bv8>, first: int, last: int) {
    |flags| == |flags'| == PAGES / 4 && forall p :: 0 <= p < PAGES ==>
      && (PageFlag(flags', p, true) <==> first <= p < last || PageFlag(flags, p, true))
      && (PageFlag(flags', p, false) <==> !(first <= p < last) && PageFlag(flags, p, false))
  }

  lemma PageStep(flags: seq<bv8>, mid: seq<bv8>, flags': seq<bv8>, first: int, page: int)
    requires PagesMarked(flags, mid, first, page) && 0 <= first <= page < PAGES
    requires flags' == mid[page / 4 := WithBit(WithoutBit(mid[page / 4], 2 * (page % 4)), 2 * (page % 4) + 1)]
    ensures PagesMarked(flags, flags', first, page + 1)
  {
    hide TestBit, WithBit, WithoutBit;
    var m, k := mid[page / 4], 2 * (page % 4);
    forall p | 0 <= p < PAGES
      ensures PageFlag(flags', p, true) <==> first <= p < page + 1 || PageFlag(flags, p, true)
      ensures PageFlag(flags', p, false) <==> !(first <= p < page + 1) && PageFlag(flags, p, false)
    {
      var j := 2 * (p % 4);
      assert PageFlag(mid, p, true) <==> first <= p < page || PageFlag(flags, p, true);
      WithoutBitClears(m, k, j);
      WithoutBitClears(m, k, j + 1);
      WithBitSets(WithoutBit(m, k), k + 1, j);
      WithBitSets(WithoutBit(m, k), k + 1, j + 1);
    }
  }

  lemma PagesRecorded(
    flags: seq<bv8>, flags': seq<bv8>, pages: seq<int>, bits: seq<seq<bv8>>, num: int, contents: iset<int>, first: int,
    last: int)
    requires TablesOK(flags, pages, bits, num) && Records(flags, pages, bits, num, contents)
    requires PagesMarked(flags, flags', first, last) && 0 <= first && (last <= PAGES || last == first)
    ensures TablesOK(flags', pages, bits, num)
    ensures Records(flags', pages, bits, num, contents + Region(first * PAGE_SIZE, last * PAGE_SIZE))
  {
    hide PageFlag, InEntry;
    forall a | 0 <= a < WORD
      ensures Stored(flags', pages, bits, num, a) <==>
              first * PAGE_SIZE <= a < last * PAGE_SIZE || Stored(flags, pages, bits, num, a)
    {
      assert first <= a / PAGE_SIZE < last <==> first * PAGE_SIZE <= a < last * PAGE_SIZE;
    }
  }

  lemma NothingStored(flags: seq<bv8>, pages: seq<int>, bits: seq<seq<bv8>>)
    requires |flags| == PAGES / 4 && (forall i :: 0 <= i < |flags| ==> flags[i] == 0)
    requires |pages| == |bits| == MAX_PARTIAL
    requires forall i :: 0 <= i < |pages| ==> pages[i] == NO_PAGE && |bits[i]| == PAGE_SIZE / 8
    ensures TablesOK(flags, pages, bits, 0) && Records(flags, pages, bits, 0, iset{})
  {
    forall p | 0 <= p < PAGES ensures !PageFlag(flags, p, false) && !PageFlag(flags, p, true) {
      NoBits(2 * (p % 4));
      NoBits(2 * (p % 4) + 1);
    }
  }

  // ---- A reachable wrong answer ----

  const HIGH := 32 * PAGE_SIZE + 8
  const LOW := 16 * PAGE_SIZE + 8

  /** The tables after page 32 and then page 16 have been inserted as the code does it: page 32 is still flagged, but no
      longer listed, and a search for it ends at an entry without bits. */
  lemma LowPageFirst(
    flags0: seq<bv8>, pages0: seq<int>, bits0: seq<seq<bv8>>, flags1: seq<bv8>, pages1: seq<int>, bits1: seq<seq<bv8>>,
    flags2: seq<bv8>, pages2: seq<int>, bits2: seq<seq<bv8>>)
    requires |flags0| == PAGES / 4 && |pages0| == |bits0| == MAX_PARTIAL
    requires forall i :: 0 <= i < |flags0| ==> flags0[i] == 0
    requires forall i :: 0 <= i < MAX_PARTIAL ==> pages0[i] == NO_PAGE && bits0[i] == EmptyRow()
    requires EntryAdded(flags0, pages0, bits0, 0, flags1, pages1, bits1, 1, 32, false)
    requires EntryAdded(flags1, pages1, bits1, 1, flags2, pages2, bits2, 2, 16, false)
    ensures |pages2| == |bits2| == MAX_PARTIAL && pages2[0] == 16 && pages2[1] == NO_PAGE && bits2[1] == EmptyRow()
    ensures |flags2| == PAGES / 4 && PageFlag(flags2, 32, false) && !PageFlag(flags2, 32, true)
  {
    hide TestBit, WithBit;
    assert pages1[0] == 32 && pages1[1] == NO_PAGE && bits1[1] == EmptyRow();
    PartialFlagSet(flags0, 32);
    PartialFlagSet(flags1, 16);
    NoBits(1);
  }

  lemma FirstPageAdded(
    flags0: seq<bv8>, pages0: seq<int>, bits0: seq<seq<bv8>>, flags1: seq<bv8>, pages1: seq<int>, bits1: seq<seq<bv8>>)
    requires |pages0| == MAX_PARTIAL && (forall i :: 0 <= i < MAX_PARTIAL ==> pages0[i] == NO_PAGE)
    requires EntryAdded(flags0, pages0, bits0, 0, flags1, pages1, bits1, 1, 32, false)
    ensures SortedPages(pages1, 1) && 16 !in pages1[..1]
  {
    hide TestBit, WithBit;
  }

  /** Two regions added, the second below the first: an address of the first is then reported as not read-only. */
  method LatePageLost() returns (h: Handle, r: bool)
    ensures fresh(h) && !h.intended && h.contents == Region(HIGH, HIGH + 8) + Region(LOW, LOW + 8)
    ensures !r && HIGH in h.contents
  {
    hide TestBit, WithBit, EntryAdded, TablesOK, Records, SortedPages;
    h := new Handle(false);
    ghost var flags0, pages0, bits0 := h.flags[..], h.pages[..], h.bits[..];
    assert h.InOrder(HIGH / PAGE_SIZE) && SortedPages(pages0, 0) by { NothingSorted(pages0); }
    var ok, overrun := h.AddRegion(HIGH, 8);
    ghost var flags1, pages1, bits1 := h.flags[..], h.pages[..], h.bits[..];
    assert h.num == 1 by { AddedCount(flags0, pages0, bits0, 0, flags1, pages1, bits1, h.num, 32, false); }
    FirstPageAdded(flags0, pages0, bits0, flags1, pages1, bits1);
    ok, overrun := h.AddRegion(LOW, 8);
    AddedCount(flags1, pages1, bits1, 1, h.flags[..], h.pages[..], h.bits[..], h.num, 16, false);
    LowPageFirst(flags0, pages0, bits0, flags1, pages1, bits1, h.flags[..], h.pages[..], h.bits[..]);
    r := h.IsAddressReadonly(HIGH);
    NoBits(HIGH % PAGE_SIZE % 8);
  }

  lemma NothingSorted(pages: seq<int>)
    requires |pages| == MAX_PARTIAL && forall i :: 0 <= i < MAX_PARTIAL ==> pages[i] == NO_PAGE
    ensures SortedPages(pages, 0)
  {}

  lemma AddedCount(
    flags: seq<bv8>, pages: seq<int>, bits: seq<seq<bv8>>, num: int,
    flags': seq<bv8>, pages': seq<int>, bits': seq<seq<bv8>>, num': int, page: int, intended: bool)
    requires EntryAdded(flags, pages, bits, num, flags', pages', bits', num', page, intended)
    ensures num' == num + 1
  {
    hide Inserted, RowInserted, WithBit;
  }

  // ---- Regions at the end of the address space ----

  const LAST_PAGE := 0xFFFF_F000

  /** A region inside the last page that does not reach its end: all pages before are marked too, and address 0 is then
      reported as read-only. */
  method LastPageMarksAll() returns (h: Handle, r: bool)
    ensures fresh(h) && h.Valid() && h.contents == Marked(LAST_PAGE + 0x800, 0x100)
    ensures r && 0 !in Wanted(LAST_PAGE + 0x800, 0x100)
  {
    hide TablesOK, Records;
    h := new Handle(false);
    var ok, _ := h.AddRegion(LAST_PAGE + 0x800, 0x100);
    r := h.IsAddressReadonly(0);
  }

  /** The last page as a whole: nothing is marked, and its first address is then reported as not read-only. */
  method LastPageMarksNothing() returns (h: Handle, r: bool)
    ensures fresh(h) && h.Valid() && h.contents == Marked(LAST_PAGE, 0x1000)
    ensures !r && LAST_PAGE in Wanted(LAST_PAGE, 0x1000)
  {
    hide TablesOK, Records;
    h := new Handle(false);
    var ok, _ := h.AddRegion(LAST_PAGE, 0x1000);
    r := h.IsAddressReadonly(LAST_PAGE);
  }
}
