/**
 The scan for the length of an Opus file (`getOpusDuration` in common/audio.go): it walks an Ogg stream page by
 page and keeps the largest granule position. Pages are those of section 6 of RFC 3533, and granule positions
 count samples at 48 kHz as section 4 of RFC 7845 has it. The reader is a file or buffer: a read fails only at
 the end, and a short one happens only there.
 */
module OggScan {
  import opened Basics

  const HEADER_SIZE := 27
  const TWO_63 := 9223372036854775808
  const TWO_64 := 18446744073709551616

  // Little-endian numbers

  function Value(b: Bytes): (v: nat)
  {
    if |b| == 0 then 0 else b[0] as int + 256 * Value(b[1..])
  }

  function Digits(v: nat, n: nat): (b: Bytes)
    ensures |b| == n
  {
    if n == 0 then [] else [(v % 256) as byte] + Digits(v / 256, n - 1)
  }

  function Power(n: nat): nat {
    if n == 0 then 1 else 256 * Power(n - 1)
  }

  lemma {:induction false} DigitsBack(v: nat, n: nat)
    requires v < Power(n)
    ensures Value(Digits(v, n)) == v
  {
    if n > 0 {
      DigitsBack(v / 256, n - 1);
      assert Digits(v, n)[1..] == Digits(v / 256, n - 1);
    }
  }

  // Little-endian: every further byte counts 256 times as much as the one before.
  lemma {:induction false} ValueNext(b: Bytes, x: byte)
    ensures Value(b + [x]) == Value(b) + x as int * Power(|b|)
  {
    if |b| == 0 {
      assert (b + [x])[1..] == [];
    } else {
      ValueNext(b[1..], x);
      assert (b + [x])[1..] == b[1..] + [x];
    }
  }

  lemma EightDigits()
    ensures Power(8) == TWO_64
  {
    assert Power(4) == 4294967296;
  }

  // int64(uint64)
  function Signed(v: nat): int {
    if v < TWO_63 then v else v - TWO_64
  }

  function Unsigned(g: int): nat
    requires -TWO_63 <= g < TWO_63
  {
    if g >= 0 then g else g + TWO_64
  }

  // Two's complement.
  lemma SignedIs(v: nat)
    requires v < TWO_64
    ensures -TWO_63 <= Signed(v) < TWO_63 && (Signed(v) == v || Signed(v) == v - TWO_64)
  {
  }

  // Every granule position can be written in eight bytes, and is read back from them.
  lemma SignedBack(g: int)
    requires -TWO_63 <= g < TWO_63
    ensures Signed(Value(Digits(Unsigned(g), 8))) == g
  {
    EightDigits();
    DigitsBack(Unsigned(g), 8);
  }

  // The scan

  lemma Slice(data: Bytes, pos: nat, n: nat, i: nat, j: nat)
    requires pos + n <= |data| && i <= j <= n
    ensures data[pos..pos + n][i..j] == data[pos + i..pos + j]
  {
    var part := data[pos..pos + n];
    assert |part[i..j]| == |data[pos + i..pos + j]|;
    forall k | 0 <= k < j - i ensures part[i..j][k] == data[pos + i..pos + j][k] {
      assert part[i..j][k] == part[i + k] == data[pos + i + k];
    }
  }

  // The capture pattern "OggS".
  const MARK: Bytes := [0x4F, 0x67, 0x67, 0x53]

  predicate MarkAt(data: Bytes, pos: nat)
    requires pos + HEADER_SIZE <= |data|
  {
    data[pos..pos + 4] == MARK
  }

  function GranuleAt(data: Bytes, pos: nat): int
    requires pos + HEADER_SIZE <= |data|
  {
    Signed(Value(data[pos + 6..pos + 14]))
  }

  function SegmentsAt(data: Bytes, pos: nat): nat
    requires pos + HEADER_SIZE <= |data|
  {
    data[pos + 26] as int
  }

  function Total(table: Bytes): nat {
    if |table| == 0 then 0 else Total(table[..|table| - 1]) + table[|table| - 1] as int
  }

  // Where the next read starts after a header at pos, if its segment table is complete.
  function AfterPage(data: Bytes, pos: nat): (next: nat)
    requires pos + HEADER_SIZE <= |data| && pos + HEADER_SIZE + SegmentsAt(data, pos) <= |data|
    ensures next > pos
  {
    var n := SegmentsAt(data, pos);
    pos + HEADER_SIZE + n + Total(data[pos + HEADER_SIZE..pos + HEADER_SIZE + n])
  }

  // The headers seen from pos on: byte by byte up to a mark, then over the page.
  function Headers(data: Bytes, pos: nat): seq<nat>
    decreases |data| - pos
  {
    if pos + HEADER_SIZE > |data| then []
    else if !MarkAt(data, pos) then Headers(data, pos + 1)
    else if pos + HEADER_SIZE + SegmentsAt(data, pos) > |data| then [pos]
    else [pos] + Headers(data, AfterPage(data, pos))
  }

  function Max(a: int, b: int): int {
    if a > b then a else b
  }

  // The largest granule position among these headers and a start value.
  function Largest(data: Bytes, headers: seq<nat>, start: int): int {
    if |headers| == 0 then start
    else if headers[0] + HEADER_SIZE > |data| then Largest(data, headers[1..], start)
    else Largest(data, headers[1..], Max(start, GranuleAt(data, headers[0])))
  }

  // One turn of the scan.
  lemma ScanTurn(data: Bytes, pos: nat, total: int)
    ensures Largest(data, Headers(data, pos), total) ==
      if pos + HEADER_SIZE > |data| then total
      else if !MarkAt(data, pos) then Largest(data, Headers(data, pos + 1), total)
      else if pos + HEADER_SIZE + SegmentsAt(data, pos) > |data| then Max(total, GranuleAt(data, pos))
      else Largest(data, Headers(data, AfterPage(data, pos)), Max(total, GranuleAt(data, pos)))
  {
    if pos + HEADER_SIZE <= |data| && MarkAt(data, pos) {
      var headers := Headers(data, pos);
      assert headers[0] == pos;
      if pos + HEADER_SIZE + SegmentsAt(data, pos) <= |data| {
        assert headers[1..] == Headers(data, AfterPage(data, pos));
      } else {
        assert |headers[1..]| == 0;
      }
    }
  }

  class Reader {
    const data: Bytes
    var pos: nat

    constructor (data: Bytes)
      ensures this.data == data && pos == 0
    {
      this.data, pos := data, 0;
    }

    // At most n bytes; none at the end.
    method Read(n: nat) returns (buf: Bytes)
      modifies this
      ensures |buf| <= n && pos == old(pos) + |buf|
      ensures |buf| == n <==> n == 0 || old(pos) + n <= |data|
      ensures pos <= |data| ==> buf == data[old(pos)..pos]
    {
      var start := if pos <= |data| then pos else |data|;
      var end := if start + n <= |data| then start + n else |data|;
      buf := data[start..end];
      pos := pos + |buf|;
    }

    method Skip(n: int)
      requires pos + n >= 0
      modifies this
      ensures pos == old(pos) + n
    {
      pos := pos + n;
    }
  }

  // The table's total is the sum of its bytes.
  lemma {:induction false} TotalIs(table: Bytes, more: Bytes, x: byte)
    ensures Total(table + more) == Total(table) + Total(more)
    ensures Total([x]) == x as int
    decreases |more|
  {
    assert [x][..0] == [];
    if |more| == 0 {
      assert table + more == table;
    } else {
      TotalIs(table, more[..|more| - 1], x);
      assert (table + more)[..|table + more| - 1] == table + more[..|more| - 1];
    }
  }

  method TableTotal(table: Bytes) returns (pageSize: nat)
    ensures pageSize == Total(table)
  {
    pageSize := 0;
    for i := 0 to |table|
      invariant pageSize == Total(table[..i])
    {
      assert table[..i + 1][..i] == table[..i];
      pageSize := pageSize + table[i] as int;
    }
    assert table[..|table|] == table;
  }

  // The fields of a header where the scan looks for them.
  lemma HeaderFields(data: Bytes, pos: nat, buf: Bytes)
    requires pos + HEADER_SIZE <= |data| && buf == data[pos..pos + HEADER_SIZE]
    ensures buf[0..4] == MARK <==> MarkAt(data, pos)
    ensures Signed(Value(buf[6..14])) == GranuleAt(data, pos) && buf[26] as int == SegmentsAt(data, pos)
  {
    Slice(data, pos, HEADER_SIZE, 0, 4);
    Slice(data, pos, HEADER_SIZE, 6, 14);
  }

  // What is left to find from a position on.
  function Rest(data: Bytes, pos: nat, total: int): int {
    Largest(data, Headers(data, pos), total)
  }

  // One turn: it ends the scan or moves the position forward.
  method Turn(r: Reader, total: int) returns (total': int, more: bool)
    modifies r
    ensures more ==>
      old(r.pos) < r.pos && old(r.pos) < |r.data| && Rest(r.data, r.pos, total') == Rest(r.data, old(r.pos), total)
    ensures !more ==> total' == Rest(r.data, old(r.pos), total)
  {
    ghost var at := r.pos;
    ScanTurn(r.data, at, total);
    total' := total;
    var buf := r.Read(HEADER_SIZE);
    if |buf| < HEADER_SIZE {
      return total', false;
    }
    HeaderFields(r.data, at, buf);
    if buf[0..4] != MARK {
      r.Skip(-26);
      return total', true;
    }
    var granulePos := Signed(Value(buf[6..14]));
    if granulePos > total' {
      total' := granulePos;
    }
    var numSegments := buf[26] as int;
    var segmentTable := r.Read(numSegments);
    if |segmentTable| < numSegments {
      return total', false;
    }
    var pageSize := TableTotal(segmentTable);
    r.Skip(pageSize);
    return total', true;
  }

  // On any bytes the scan comes to an end, every turn having moved the position forward, and returns the
  // largest granule position of the headers it saw, or 0.
  method ScanGranules(r: Reader) returns (total: int)
    modifies r
    ensures total == Rest(r.data, 0, 0)
  {
    r.pos := 0;
    total := 0;
    var more := true;
    while more
      invariant more ==> Rest(r.data, r.pos, total) == Rest(r.data, 0, 0)
      invariant !more ==> total == Rest(r.data, 0, 0)
      decreases more, |r.data| - r.pos
    {
      total, more := Turn(r, total);
    }
  }

  method Duration(r: Reader) returns (seconds: real)
    modifies r
    ensures seconds * 48000.0 == Rest(r.data, 0, 0) as real
  {
    var total := ScanGranules(r);
    seconds := total as real / 48000.0;
  }

  // Streams of pages

  // A page of section 6 of RFC 3533; serial number, sequence number and checksum are the twelve bytes `ids`.
  datatype Page = Page(version: byte, flags: byte, position: Bytes, ids: Bytes, table: Bytes, payload: Bytes)

  predicate WellFormed(p: Page) {
    |p.position| == 8 && |p.ids| == 12 && |p.table| < 256 && |p.payload| == Total(p.table)
  }

  function Granule(p: Page): int {
    Signed(Value(p.position))
  }

  function Header(p: Page): (b: Bytes)
    requires WellFormed(p)
    ensures |b| == HEADER_SIZE
  {
    MARK + [p.version, p.flags] + p.position + p.ids + [|p.table| as byte]
  }

  function PageSize(p: Page): nat {
    HEADER_SIZE + |p.table| + |p.payload|
  }

  function Encode(p: Page): (b: Bytes)
    requires WellFormed(p)
    ensures |b| == PageSize(p)
  {
    Header(p) + p.table + p.payload
  }

  predicate AllWellFormed(pages: seq<Page>) {
    forall i :: 0 <= i < |pages| ==> WellFormed(pages[i])
  }

  function Stream(pages: seq<Page>): Bytes
    requires AllWellFormed(pages)
  {
    if |pages| == 0 then [] else Encode(pages[0]) + Stream(pages[1..])
  }

  // Where the pages of a stream start, the first at a given place.
  function Offsets(pages: seq<Page>, start: nat): seq<nat> {
    if |pages| == 0 then [] else [start] + Offsets(pages[1..], start + PageSize(pages[0]))
  }

  function LargestOf(pages: seq<Page>, start: int): int {
    if |pages| == 0 then start else LargestOf(pages[1..], Max(start, Granule(pages[0])))
  }

  // At a position the scan reads this page's granule position, and goes on where the page ends; if the data ends
  // inside the segment table it is over, and the page would have ended behind the data.
  predicate StepsOver(data: Bytes, pos: nat, p: Page) {
    && pos + HEADER_SIZE <= |data| && MarkAt(data, pos) && GranuleAt(data, pos) == Granule(p)
    && (if pos + HEADER_SIZE + SegmentsAt(data, pos) <= |data| then AfterPage(data, pos) == pos + PageSize(p)
        else pos + PageSize(p) > |data|)
  }

  // It does so wherever the page lies, whole or cut off behind its header by the end of the data: the fields are
  // where the scan looks for them.
  lemma PageFields(data: Bytes, pos: nat, p: Page, m: nat)
    requires WellFormed(p) && HEADER_SIZE <= m <= PageSize(p) && pos + m <= |data|
    requires data[pos..pos + m] == Encode(p)[..m] && (m == PageSize(p) || pos + m == |data|)
    ensures StepsOver(data, pos, p)
  {
    var e, n := Encode(p)[..m], |p.table|;
    Slice(data, pos, m, 0, 4);
    Slice(data, pos, m, 6, 14);
    FieldsIn(p, m);
    assert data[pos + 26] == data[pos..pos + m][26] == e[26];
    if HEADER_SIZE + n <= m {
      Slice(data, pos, m, HEADER_SIZE, HEADER_SIZE + n);
      TableIn(p, m);
    }
  }

  lemma FieldsIn(p: Page, m: nat)
    requires WellFormed(p) && HEADER_SIZE <= m <= PageSize(p)
    ensures var e := Encode(p)[..m];
      e[0..4] == MARK && e[6..14] == p.position && e[26] as int == |p.table|
  {
    var h := Header(p);
    assert forall i :: 0 <= i < HEADER_SIZE ==> Encode(p)[..m][i] == h[i];
    assert forall i :: 0 <= i < 8 ==> h[6 + i] == p.position[i];
  }

  lemma TableIn(p: Page, m: nat)
    requires WellFormed(p) && HEADER_SIZE + |p.table| <= m <= PageSize(p)
    ensures Encode(p)[..m][HEADER_SIZE..HEADER_SIZE + |p.table|] == p.table
  {
    Between(Header(p), p.table, p.payload);
    Slice(Encode(p), 0, m, HEADER_SIZE, HEADER_SIZE + |p.table|);
    assert Encode(p)[0..0 + m] == Encode(p)[..m];
  }

  // Pages are stepped over one after the other, up to where no header fits.
  predicate PagesAt(data: Bytes, pos: nat, pages: seq<Page>)
    decreases |pages|
  {
    if |pages| == 0 then pos + HEADER_SIZE > |data|
    else StepsOver(data, pos, pages[0]) && PagesAt(data, pos + PageSize(pages[0]), pages[1..])
  }

  // The scan then sees exactly their headers and keeps their largest granule position.

  lemma {:induction false} HeadersAreFound(data: Bytes, pos: nat, pages: seq<Page>)
    requires PagesAt(data, pos, pages)
    ensures Headers(data, pos) == Offsets(pages, pos)
    decreases |pages|
  {
    if |pages| > 0 {
      HeaderTurn(data, pos, pages[0]);
      HeadersAreFound(data, pos + PageSize(pages[0]), pages[1..]);
    }
  }

  lemma HeaderTurn(data: Bytes, pos: nat, p: Page)
    requires StepsOver(data, pos, p)
    ensures Headers(data, pos) == [pos] + Headers(data, pos + PageSize(p))
  {
    if pos + HEADER_SIZE + SegmentsAt(data, pos) <= |data| {
      HeaderWhole(data, pos);
    } else {
      NoHeader(data, pos + PageSize(p));
      HeaderCut(data, pos);
    }
  }

  lemma HeaderWhole(data: Bytes, pos: nat)
    requires pos + HEADER_SIZE <= |data| && MarkAt(data, pos) && pos + HEADER_SIZE + SegmentsAt(data, pos) <= |data|
    ensures Headers(data, pos) == [pos] + Headers(data, AfterPage(data, pos))
  {
  }

  lemma HeaderCut(data: Bytes, pos: nat)
    requires pos + HEADER_SIZE <= |data| && MarkAt(data, pos) && pos + HEADER_SIZE + SegmentsAt(data, pos) > |data|
    ensures Headers(data, pos) == [pos]
  {
  }

  lemma NoHeader(data: Bytes, pos: nat)
    requires pos + HEADER_SIZE > |data|
    ensures Headers(data, pos) == []
  {
  }

  lemma {:induction false} LargestIsFound(data: Bytes, pos: nat, pages: seq<Page>, total: int)
    requires PagesAt(data, pos, pages)
    ensures Rest(data, pos, total) == LargestOf(pages, total)
    decreases |pages|
  {
    ScanTurn(data, pos, total);
    if |pages| > 0 {
      var next, total' := pos + PageSize(pages[0]), Max(total, Granule(pages[0]));
      ScanTurn(data, next, total');
      LargestIsFound(data, next, pages[1..], total');
    }
  }

  lemma Between(before: Bytes, e: Bytes, after: Bytes)
    ensures (before + e + after)[|before|..|before| + |e|] == e
  {
  }

  lemma PageInStream(data: Bytes, before: Bytes, p: Page, after: Bytes)
    requires WellFormed(p) && data == before + Encode(p) + after
    ensures StepsOver(data, |before|, p)
  {
    Between(before, Encode(p), after);
    assert Encode(p)[..PageSize(p)] == Encode(p);
    PageFields(data, |before|, p, PageSize(p));
  }

  lemma Regroup(data: Bytes, before: Bytes, e: Bytes, rest: Bytes, tail: Bytes)
    requires data == before + (e + rest) + tail
    ensures data == before + e + (rest + tail) && data == (before + e) + rest + tail
  {
  }

  // Whole pages, the last of which ends at a position.
  predicate Chain(data: Bytes, pos: nat, pages: seq<Page>, end: nat)
    decreases |pages|
  {
    if |pages| == 0 then pos == end
    else StepsOver(data, pos, pages[0]) && Chain(data, pos + PageSize(pages[0]), pages[1..], end)
  }

  lemma {:induction false} StreamIsChain(data: Bytes, before: Bytes, pages: seq<Page>, tail: Bytes, end: nat)
    requires AllWellFormed(pages) && data == before + Stream(pages) + tail && end == |before| + |Stream(pages)|
    ensures Chain(data, |before|, pages, end)
    decreases |pages|
  {
    if |pages| > 0 {
      var p, rest := pages[0], Stream(pages[1..]);
      Regroup(data, before, Encode(p), rest, tail);
      PageInStream(data, before, p, rest + tail);
      StreamIsChain(data, before + Encode(p), pages[1..], tail, end);
    }
  }

  lemma {:induction false} ChainThen(data: Bytes, pos: nat, pages: seq<Page>, end: nat, last: seq<Page>)
    requires Chain(data, pos, pages, end) && PagesAt(data, end, last)
    ensures PagesAt(data, pos, pages + last)
    decreases |pages|
  {
    if |pages| == 0 {
      assert pages + last == last;
    } else {
      ChainThen(data, pos + PageSize(pages[0]), pages[1..], end, last);
      RestOf(pages, last);
    }
  }

  lemma RestOf(pages: seq<Page>, last: seq<Page>)
    requires |pages| > 0
    ensures (pages + last)[0] == pages[0] && (pages + last)[1..] == pages[1..] + last
  {
  }

  // The bytes behind the last whole page are too few for a header, or the beginning of a page.
  predicate Tail(tail: Bytes, cut: Page) {
    |tail| < HEADER_SIZE || (WellFormed(cut) && tail <= Encode(cut))
  }

  function Begun(tail: Bytes, cut: Page): seq<Page> {
    if |tail| < HEADER_SIZE then [] else [cut]
  }

  lemma TailAt(data: Bytes, before: Bytes, tail: Bytes, cut: Page, end: nat)
    requires Tail(tail, cut) && data == before + tail && end == |before|
    ensures PagesAt(data, end, Begun(tail, cut))
  {
    if |tail| >= HEADER_SIZE {
      assert data[|before|..|before| + |tail|] == tail == Encode(cut)[..|tail|];
      PageFields(data, |before|, cut, |tail|);
      assert PagesAt(data, |before| + PageSize(cut), Begun(tail, cut)[1..]);
    }
  }

  // No page starts before a position.
  predicate Unmarked(data: Bytes, from: nat, start: nat) {
    forall i :: from <= i < start && i + HEADER_SIZE <= |data| ==> !MarkAt(data, i)
  }

  // Bytes before the first page are passed one by one.
  lemma {:induction false} JunkIsPassed(data: Bytes, pos: nat, start: nat, total: int)
    requires pos <= start && Unmarked(data, pos, start)
    ensures Headers(data, pos) == Headers(data, start) && Rest(data, pos, total) == Rest(data, start, total)
    decreases start - pos
  {
    if pos < start {
      ScanTurn(data, pos, total);
      JunkIsPassed(data, pos + 1, start, total);
    }
  }

  lemma {:induction false} LargestIs(pages: seq<Page>, start: int)
    ensures var m := LargestOf(pages, start);
      && m >= start && (forall i :: 0 <= i < |pages| ==> Granule(pages[i]) <= m)
      && (m == start || exists i :: 0 <= i < |pages| && Granule(pages[i]) == m)
  {
    if |pages| > 0 {
      LargestIs(pages[1..], Max(start, Granule(pages[0])));
      var m := LargestOf(pages, start);
      forall i | 0 <= i < |pages| ensures Granule(pages[i]) <= m {
        if i > 0 {
          assert pages[i] == pages[1..][i - 1];
        }
      }
    }
  }

  // The largest granule position among the pages, or 0.
  ghost predicate IsLargest(m: int, pages: seq<Page>) {
    && m >= 0 && (forall i :: 0 <= i < |pages| ==> Granule(pages[i]) <= m)
    && (m == 0 || exists i :: 0 <= i < |pages| && Granule(pages[i]) == m)
  }

  lemma PagesScanned(data: Bytes, start: nat, pages: seq<Page>)
    requires Unmarked(data, 0, start) && PagesAt(data, start, pages)
    ensures Headers(data, 0) == Offsets(pages, start) && IsLargest(Rest(data, 0, 0), pages)
  {
    JunkIsPassed(data, 0, start, 0);
    HeadersAreFound(data, start, pages);
    LargestIsFound(data, start, pages, 0);
    LargestIs(pages, 0);
  }

  // A file of well-formed pages, with or without junk before, and behind them less than a header or a page that is
  // cut off: the scan lands on every page header in turn and finds the largest granule position, 0 if none is
  // larger, the page that is cut off counting once its header is complete. Pages that end no packet carry -1 and
  // change nothing.
  lemma ScanFindsPages(junk: Bytes, pages: seq<Page>, tail: Bytes, cut: Page)
    requires AllWellFormed(pages) && Tail(tail, cut)
    requires Unmarked(junk + Stream(pages) + tail, 0, |junk|)
    ensures var data, seen := junk + Stream(pages) + tail, pages + Begun(tail, cut);
      Headers(data, 0) == Offsets(seen, |junk|) && IsLargest(Rest(data, 0, 0), seen)
  {
    var data, end := junk + Stream(pages) + tail, |junk| + |Stream(pages)|;
    TailAt(data, junk + Stream(pages), tail, cut, end);
    StreamIsChain(data, junk, pages, tail, end);
    ChainThen(data, |junk|, pages, end, Begun(tail, cut));
    PagesScanned(data, |junk|, pages + Begun(tail, cut));
  }
}
