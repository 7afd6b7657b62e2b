/** The Ogg page scanner behind the Opus duration: it reads page headers, keeps the largest granule position and
    resynchronises byte by byte when it is not at a page. Pages are laid out as in section 6 of RFC 3533. */
module OggScanner {

  type byte = b: int | 0 <= b < 256

  const MAGIC: seq<byte> := [0x4F, 0x67, 0x67, 0x53]
  const HEADER := 27
  const TWO_63 := 0x8000_0000_0000_0000
  const TWO_64 := 0x1_0000_0000_0000_0000

  // ---------------------------------------------------------------- little-endian integers

  function Decode(bytes: seq<byte>): nat {
    if bytes == [] then 0 else bytes[0] + 256 * Decode(bytes[1..])
  }

  function Encode(v: nat, k: nat): (r: seq<byte>)
    ensures |r| == k
  {
    if k == 0 then [] else [v % 256] + Encode(v / 256, k - 1)
  }

  function Power(k: nat): nat {
    if k == 0 then 1 else 256 * Power(k - 1)
  }

  lemma {:induction false} DecodeEncode(v: nat, k: nat)
    requires v < Power(k)
    ensures Decode(Encode(v, k)) == v
  {
    if k > 0 {
      DecodeEncode(v / 256, k - 1);
      assert Encode(v, k)[1..] == Encode(v / 256, k - 1);
    }
  }

  lemma EightBytes()
    ensures Power(8) == TWO_64
  {
    assert Power(2) == 0x1_0000;
    assert Power(4) == 0x1_0000_0000;
    assert Power(6) == 0x1_0000_0000_0000;
  }

  /** `int64` of an unsigned 64-bit value. */
  function Signed(v: nat): int {
    if v >= TWO_63 then v - TWO_64 else v
  }

  function Unsigned(v: int): nat
    requires -TWO_63 <= v < TWO_63
  {
    if v < 0 then v + TWO_64 else v
  }

  function Sum(table: seq<byte>): nat {
    if table == [] then 0 else Sum(table[..|table| - 1]) + table[|table| - 1]
  }

  function Max(a: int, b: int): int {
    if b > a then b else a
  }

  // ---------------------------------------------------------------- the scanner

  /** What is left of a file after a position, which a seek may put past the end. */
  function Rest(file: seq<byte>, pos: nat): (r: seq<byte>)
    ensures |r| == if pos <= |file| then |file| - pos else 0
  {
    if pos <= |file| then file[pos..] else []
  }

  /** The largest of `total` and the granule positions the scanner meets in `file`. */
  function Scan(file: seq<byte>, total: int): int
    decreases |file|
  {
    if |file| < HEADER then total
    else if file[..4] != MAGIC then Scan(file[1..], total)
    else
      var total' := Max(total, Signed(Decode(file[6..14])));
      var segments := file[26];
      if |file| < HEADER + segments then total'
      else Scan(Rest(file, HEADER + segments + Sum(file[HEADER..HEADER + segments])), total')
  }

  method PageSize(table: seq<byte>) returns (size: nat)
    ensures size == Sum(table)
  {
    size := 0;
    for k := 0 to |table|
      invariant size == Sum(table[..k])
    {
      assert table[..k + 1][..k] == table[..k];
      size := size + table[k];
    }
    assert table[..|table|] == table;
  }

  lemma AtEnd(file: seq<byte>, pos: nat, total: int)
    requires pos + HEADER > |file|
    ensures Scan(Rest(file, pos), total) == total
  {
  }

  lemma AtStrayByte(file: seq<byte>, pos: nat, total: int)
    requires pos + HEADER <= |file| && file[pos..pos + 4] != MAGIC
    ensures Scan(Rest(file, pos), total) == Scan(Rest(file, pos + 1), total)
  {
    hide Decode, Sum;
    var rest := Rest(file, pos);
    assert rest[..4] == file[pos..pos + 4];
    assert rest[1..] == Rest(file, pos + 1);
  }

  lemma ScanOnePage(file: seq<byte>, total: int)
    requires |file| >= HEADER && file[..4] == MAGIC
    ensures var total' := Max(total, Signed(Decode(file[6..14])));
            Scan(file, total) ==
            if |file| < HEADER + file[26] then total'
            else Scan(Rest(file, HEADER + file[26] + Sum(file[HEADER..HEADER + file[26]])), total')
  {
    hide Decode, Sum, Rest, Signed;
  }

  lemma AtPage(file: seq<byte>, pos: nat, total: int)
    requires pos + HEADER <= |file| && file[pos..pos + 4] == MAGIC
    ensures var total' := Max(total, Signed(Decode(file[pos + 6..pos + 14])));
            var segments := file[pos + 26];
            Scan(Rest(file, pos), total) ==
            if pos + HEADER + segments > |file| then total'
            else Scan(Rest(file, pos + HEADER + segments + Sum(file[pos + HEADER..pos + HEADER + segments])), total')
  {
    hide Decode, Sum, Scan, Rest, Signed, Max;
    var rest := Rest(file, pos);
    var segments := file[pos + 26];
    RestSlice(file, pos, 0, 4);
    RestSlice(file, pos, 6, 14);
    RestSlice(file, pos, 26, 27);
    ScanOnePage(rest, total);
    if pos + HEADER + segments <= |file| {
      RestSlice(file, pos, HEADER, HEADER + segments);
      RestRest(file, pos, HEADER + segments + Sum(file[pos + HEADER..pos + HEADER + segments]));
    }
  }

  lemma RestSlice(file: seq<byte>, pos: nat, i: nat, j: nat)
    requires i <= j && pos + j <= |file|
    ensures Rest(file, pos)[i..j] == file[pos + i..pos + j]
    ensures i < j ==> Rest(file, pos)[i] == file[pos + i]
  {
  }

  lemma RestRest(file: seq<byte>, pos: nat, skip: nat)
    requires pos <= |file|
    ensures Rest(Rest(file, pos), skip) == Rest(file, pos + skip)
  {
  }

  /** The scanning loop. Its offset grows in every round, so it stops. */
  method OpusGranules(file: seq<byte>) returns (total: int)
    ensures total == Scan(file, 0)
  {
    hide Decode, Sum, Scan, Rest;
    total := 0;
    var pos := 0;
    assert Scan(Rest(file, 0), 0) == Scan(file, 0) by {
      WholeFile(file);
    }
    while pos + HEADER <= |file|
      invariant Scan(Rest(file, pos), total) == Scan(file, 0)
      decreases |file| - pos
    {
      var header := file[pos..pos + HEADER];
      if header[0..4] != MAGIC {
        Slice(file, pos, HEADER, 0, 4);
        AtStrayByte(file, pos, total);
        pos := pos + HEADER - 26;
        continue;
      }
      Slice(file, pos, HEADER, 0, 4);
      Slice(file, pos, HEADER, 6, 14);
      AtPage(file, pos, total);
      var granule := Signed(Decode(header[6..14]));
      if granule > total {
        total := granule;
      }
      var segments := header[26];
      if pos + HEADER + segments > |file| {
        return;
      }
      var size := PageSize(file[pos + HEADER..pos + HEADER + segments]);
      pos := pos + HEADER + segments + size;
    }
    AtEnd(file, pos, total);
  }

  lemma Slice<T>(s: seq<T>, pos: nat, len: nat, i: nat, j: nat)
    requires i <= j <= len && pos + len <= |s|
    ensures s[pos..pos + len][i..j] == s[pos + i..pos + j]
  {
    var whole, part := s[pos..pos + len][i..j], s[pos + i..pos + j];
    assert |whole| == |part|;
    forall k | 0 <= k < |part| ensures whole[k] == part[k] {
      assert whole[k] == s[pos..pos + len][i + k];
    }
  }

  lemma WholeFile(file: seq<byte>)
    ensures Rest(file, 0) == file
  {
  }

  /** Seconds at the 48 kHz of Opus granule positions. */
  method OpusDuration(file: seq<byte>) returns (seconds: real)
    ensures seconds * 48000.0 == Scan(file, 0) as real
  {
    var total := OpusGranules(file);
    seconds := total as real / 48000.0;
  }

  // ---------------------------------------------------------------- well-formed streams

  datatype Page = Page(version: byte, kind: byte, granule: int, serial: seq<byte>, table: seq<byte>, body: seq<byte>)

  /** `serial` holds the stream serial number, the page sequence number and the checksum. */
  predicate WellFormed(p: Page) {
    -TWO_63 <= p.granule < TWO_63 && |p.serial| == 12 && |p.table| < 256 && |p.body| == Sum(p.table)
  }

  function Bytes(p: Page): (r: seq<byte>)
    requires WellFormed(p)
    ensures |r| == HEADER + |p.table| + |p.body|
  {
    MAGIC + [p.version, p.kind] + Encode(Unsigned(p.granule), 8) + p.serial + [|p.table|] + p.table + p.body
  }

  /** A page and the stray bytes before it. */
  datatype Chunk = Chunk(gap: seq<byte>, page: Page)

  ghost predicate AllWellFormed(chunks: seq<Chunk>) {
    forall k :: 0 <= k < |chunks| ==> WellFormed(chunks[k].page)
  }

  function Stream(chunks: seq<Chunk>, tail: seq<byte>): seq<byte>
    requires AllWellFormed(chunks)
  {
    if chunks == [] then tail else chunks[0].gap + (Bytes(chunks[0].page) + Stream(chunks[1..], tail))
  }

  /** No page mark starts inside the stray bytes. */
  ghost predicate Quiet(gap: seq<byte>, rest: seq<byte>) {
    forall k :: 0 <= k < |gap| ==> !(MAGIC <= (gap + rest)[k..])
  }

  ghost predicate QuietGaps(chunks: seq<Chunk>, tail: seq<byte>)
    requires AllWellFormed(chunks)
  {
    if chunks == [] then Quiet(tail, [])
    else Quiet(chunks[0].gap, Bytes(chunks[0].page) + Stream(chunks[1..], tail)) && QuietGaps(chunks[1..], tail)
  }

  /** The largest granule position, if it beats `total`. */
  function Largest(chunks: seq<Chunk>, total: int): (r: int)
    ensures r >= total && forall k :: 0 <= k < |chunks| ==> chunks[k].page.granule <= r
    ensures r == total || exists k :: 0 <= k < |chunks| && chunks[k].page.granule == r
    decreases |chunks|
  {
    if chunks == [] then total else
      var r := Largest(chunks[1..], Max(total, chunks[0].page.granule));
      assert forall k :: 0 < k < |chunks| ==> chunks[k] == chunks[1..][k - 1];
      r
  }

  lemma Middle(before: seq<byte>, part: seq<byte>, after: seq<byte>)
    ensures (before + part + after)[|before|..|before| + |part|] == part
  {
  }

  lemma InsideHead(head: seq<byte>, tail: seq<byte>, i: nat, j: nat)
    requires i <= j <= |head|
    ensures (head + tail)[i..j] == head[i..j]
  {
  }

  lemma HeadFields(flags: seq<byte>, granule: seq<byte>, serial: seq<byte>, n: byte)
    requires |flags| == 2 && |granule| == 8 && |serial| == 12
    ensures var head := MAGIC + flags + granule + serial + [n];
            |head| == HEADER && head[..4] == MAGIC && head[6..14] == granule && head[26] == n
  {
    var head := MAGIC + flags + granule + serial + [n];
    assert head == MAGIC + flags + granule + (serial + [n]);
    Middle(MAGIC + flags, granule, serial + [n]);
  }

  lemma PageParts(head: seq<byte>, table: seq<byte>, body: seq<byte>, rest: seq<byte>)
    requires |head| == HEADER
    ensures var f := head + table + body + rest;
            && f[..4] == head[..4] && f[6..14] == head[6..14] && f[26] == head[26]
            && f[HEADER..HEADER + |table|] == table
            && f[HEADER + |table| + |body|..] == rest
  {
    var f, tail := head + table + body + rest, table + body + rest;
    assert f == head + tail;
    InsideHead(head, tail, 0, 4);
    InsideHead(head, tail, 6, 14);
    assert f == head + table + (body + rest);
    Middle(head, table, body + rest);
    assert f[|head + table + body|..] == rest;
  }

  lemma PageFields(p: Page, rest: seq<byte>)
    requires WellFormed(p)
    ensures var f := Bytes(p) + rest;
            && f[..4] == MAGIC
            && Signed(Decode(f[6..14])) == p.granule
            && f[26] == |p.table|
            && f[HEADER..HEADER + |p.table|] == p.table
            && f[HEADER + |p.table| + |p.body|..] == rest
  {
    hide Encode, Decode, Signed, Unsigned, Sum;
    var granule := Encode(Unsigned(p.granule), 8);
    HeadFields([p.version, p.kind], granule, p.serial, |p.table|);
    PageParts(MAGIC + [p.version, p.kind] + granule + p.serial + [|p.table|], p.table, p.body, rest);
    GranuleRoundTrip(p.granule);
  }

  lemma GranuleRoundTrip(granule: int)
    requires -TWO_63 <= granule < TWO_63
    ensures Signed(Decode(Encode(Unsigned(granule), 8))) == granule
  {
    hide Encode, Decode, Power;
    EightBytes();
    DecodeEncode(Unsigned(granule), 8);
  }

  /** A page is consumed whole, whatever its body holds. */
  lemma ScanPage(p: Page, rest: seq<byte>, total: int)
    requires WellFormed(p)
    ensures Scan(Bytes(p) + rest, total) == Scan(rest, Max(total, p.granule))
  {
    hide Decode, Sum, Bytes;
    PageFields(p, rest);
    assert Rest(Bytes(p) + rest, HEADER + |p.table| + |p.body|) == rest;
  }

  lemma {:induction false} ScanGap(gap: seq<byte>, rest: seq<byte>, total: int)
    requires Quiet(gap, rest) && (rest == [] || |rest| >= HEADER)
    ensures Scan(gap + rest, total) == Scan(rest, total)
  {
    hide Decode, Sum;
    if gap == [] {
      assert gap + rest == rest;
    } else {
      var f := gap + rest;
      assert f[0..] == f && !(MAGIC <= f);
      assert f[1..] == gap[1..] + rest;
      assert Quiet(gap[1..], rest) by {
        forall k | 0 <= k < |gap[1..]| ensures !(MAGIC <= (gap[1..] + rest)[k..]) {
          assert (gap[1..] + rest)[k..] == f[k + 1..];
        }
      }
      ScanGap(gap[1..], rest, total);
    }
  }

  /** On any stream of well-formed pages, with stray bytes before, between and after them in which no page mark
      starts, the scan yields the largest granule position. */
  lemma {:induction false} ScanStream(chunks: seq<Chunk>, tail: seq<byte>, total: int)
    requires AllWellFormed(chunks) && QuietGaps(chunks, tail)
    ensures Scan(Stream(chunks, tail), total) == Largest(chunks, total)
    decreases |chunks|
  {
    hide Scan, Bytes, Quiet;
    if chunks == [] {
      assert tail + [] == tail;
      ScanGap(tail, [], total);
      ScanNothing(total);
    } else {
      var page := chunks[0].page;
      var rest := Stream(chunks[1..], tail);
      ScanGap(chunks[0].gap, Bytes(page) + rest, total);
      ScanPage(page, rest, total);
      ScanStream(chunks[1..], tail, Max(total, page.granule));
    }
  }

  lemma ScanNothing(total: int)
    ensures Scan([], total) == total
  {
  }

  /** Stray bytes make no difference: with or without them, the same pages give the same result. */
  lemma GapsDoNotMatter(chunks: seq<Chunk>, tail: seq<byte>, pages: seq<Chunk>)
    requires AllWellFormed(chunks) && QuietGaps(chunks, tail)
    requires |pages| == |chunks| && forall k :: 0 <= k < |pages| ==> pages[k] == Chunk([], chunks[k].page)
    ensures AllWellFormed(pages) && Scan(Stream(chunks, tail), 0) == Scan(Stream(pages, []), 0)
  {
    hide Scan, Stream;
    NoGapsAreQuiet(pages);
    ScanStream(chunks, tail, 0);
    ScanStream(pages, [], 0);
  }

  lemma {:induction false} NoGapsAreQuiet(pages: seq<Chunk>)
    requires AllWellFormed(pages) && forall k :: 0 <= k < |pages| ==> pages[k].gap == []
    ensures QuietGaps(pages, [])
    decreases |pages|
  {
    if pages != [] {
      NoGapsAreQuiet(pages[1..]);
    }
  }

  /** A file that is cut off inside a page counts that page exactly when its header is complete. */
  lemma {:induction false} ScanCutStream(pages: seq<Chunk>, p: Page, n: nat, total: int)
    requires AllWellFormed(pages) && (forall k :: 0 <= k < |pages| ==> pages[k].gap == [])
    requires WellFormed(p) && n <= |Bytes(p)|
    ensures Scan(Stream(pages, Bytes(p)[..n]), total) ==
            if n < HEADER then Largest(pages, total) else Max(Largest(pages, total), p.granule)
    decreases |pages|
  {
    hide Scan, Bytes, WellFormed;
    if pages == [] {
      ScanCutPage(p, n, total);
    } else {
      var rest := Stream(pages[1..], Bytes(p)[..n]);
      assert [] + (Bytes(pages[0].page) + rest) == Bytes(pages[0].page) + rest;
      ScanPage(pages[0].page, rest, total);
      ScanCutStream(pages[1..], p, n, Max(total, pages[0].page.granule));
    }
  }

  lemma ScanCutPage(p: Page, n: nat, total: int)
    requires WellFormed(p) && n <= |Bytes(p)|
    ensures Scan(Bytes(p)[..n], total) == if n < HEADER then total else Max(total, p.granule)
  {
    hide Decode, Signed, Bytes;
    var whole := Bytes(p);
    var f := whole[..n];
    if n >= HEADER {
      PageFields(p, []);
      assert whole + [] == whole;
      CutFields(whole, n);
      ScanOnePage(f, total);
      if n >= HEADER + |p.table| {
        assert f[HEADER..HEADER + |p.table|] == whole[HEADER..HEADER + |p.table|];
        ScanNothing(Max(total, p.granule));
        assert Rest(f, HEADER + |p.table| + Sum(p.table)) == [];
      }
    } else {
      ShortFile(f, total);
    }
  }

  lemma ShortFile(f: seq<byte>, total: int)
    requires |f| < HEADER
    ensures Scan(f, total) == total
  {
  }

  lemma CutFields(whole: seq<byte>, n: nat)
    requires HEADER <= n <= |whole|
    ensures whole[..n][..4] == whole[..4] && whole[..n][6..14] == whole[6..14] && whole[..n][26] == whole[26]
  {
  }
}
