/**
 The Ogg page scanner behind getOpusDuration: it reads 27-byte page headers, skips the page bodies,
 resynchronises byte by byte when no page begins, and keeps the largest granule position. Pages are
 those of section 6 of RFC 3533; granule positions count 48 kHz samples (section 4 of RFC 7845).
 */
module OggPages {
  import opened MachineTypes

  const CAPTURE: seq<Byte> := [0x4F, 0x67, 0x67, 0x53] // "OggS"
  const HEADER := 27

  lemma SliceOfSlice(s: seq<Byte>, a: nat, b: nat, i: nat, j: nat)
    requires a <= b <= |s| && i <= j <= b - a
    ensures s[a..b][i..j] == s[a + i..a + j]
  {
    var x, y := s[a..b][i..j], s[a + i..a + j];
    forall k | 0 <= k < |x| ensures x[k] == y[k] {
      assert x[k] == s[a..b][i + k];
    }
  }

  lemma SliceOfConcat(s: seq<Byte>, from: nat, x: seq<Byte>, y: seq<Byte>)
    requires from <= |s| && s[from..] == x + y
    ensures from + |x| <= |s| && s[from..from + |x|] == x && s[from + |x|..] == y
  {
    assert s[from..][..|x|] == x && s[from..][|x|..] == y;
  }

  // Little-endian numbers

  function FromLittleEndian(bs: seq<Byte>): (n: nat) {
    if bs == [] then 0 else bs[0] + 256 * FromLittleEndian(bs[1..])
  }

  function ToLittleEndian(n: nat, width: nat): (bs: seq<Byte>)
    ensures |bs| == width
  {
    if width == 0 then [] else [n % 256] + ToLittleEndian(n / 256, width - 1)
  }

  function Power256(k: nat): nat {
    if k == 0 then 1 else 256 * Power256(k - 1)
  }

  lemma {:induction false} LittleEndianRoundTrip(n: nat, width: nat)
    requires n < Power256(width)
    ensures FromLittleEndian(ToLittleEndian(n, width)) == n
    decreases width
  {
    if width > 0 {
      LittleEndianRoundTrip(n / 256, width - 1);
    }
  }

  lemma PowerOf8()
    ensures Power256(8) == TWO_64
  {
    assert Power256(4) == 0x1_0000_0000;
    assert Power256(8) == 256 * 256 * 256 * 256 * Power256(4);
  }

  /** int64(uint64): the two's complement reading. */
  function Signed(n: nat): int {
    if n < TWO_63 then n else n - TWO_64
  }

  function Unsigned(g: int): (n: nat)
    requires -TWO_63 <= g < TWO_63
    ensures n < TWO_64 && Signed(n) == g
  {
    if g < 0 then g + TWO_64 else g
  }

  // The scanner

  predicate PageAt(data: seq<Byte>, pos: nat) {
    pos + 4 <= |data| && data[pos..pos + 4] == CAPTURE
  }

  function Sum(bs: seq<Byte>): nat {
    if bs == [] then 0 else bs[0] + Sum(bs[1..])
  }

  /** What one iteration finds at a position: too few bytes, no page, or a page and where to go on. */
  datatype Step = Short | NoPage | Truncated(granule: int) | Found(granule: int, next: nat)

  function At(data: seq<Byte>, pos: nat): (r: Step)
    ensures r.Short? <==> pos + HEADER > |data|
    ensures r.Found? ==> r.next > pos
  {
    if pos + HEADER > |data| then Short
    else if !PageAt(data, pos) then NoPage
    else
      var granule := Signed(FromLittleEndian(data[pos + 6..pos + 14]));
      var table := pos + HEADER + data[pos + 26];
      if table > |data| then Truncated(granule)
      else Found(granule, table + Sum(data[pos + HEADER..table]))
  }

  /** The pages the scanner stops at from `pos` on, with their granule positions. */
  function Scan(data: seq<Byte>, pos: nat): (visits: seq<(nat, int)>)
    decreases if pos < |data| then |data| - pos else 0
  {
    match At(data, pos)
    case Short => []
    case NoPage => Scan(data, pos + 1)
    case Truncated(g) => [(pos, g)]
    case Found(g, next) => [(pos, g)] + Scan(data, next)
  }

  /** The largest granule position, or zero. */
  function MaxGranule(visits: seq<(nat, int)>): (m: int) {
    if visits == [] then 0
    else
      var m := MaxGranule(visits[..|visits| - 1]);
      var last := visits[|visits| - 1];
      if last.1 > m then last.1 else m
  }

  lemma MaxGranuleAppend(visits: seq<(nat, int)>, v: (nat, int))
    ensures MaxGranule(visits + [v]) == if v.1 > MaxGranule(visits) then v.1 else MaxGranule(visits)
  {
    assert (visits + [v])[..|visits|] == visits;
  }

  lemma VisitNext(data: seq<Byte>, pos: nat, seen: seq<(nat, int)>)
    requires At(data, pos).Found?
    ensures var step := At(data, pos);
            seen + Scan(data, pos) == (seen + [(pos, step.granule)]) + Scan(data, step.next)
  {
  }

  /** getOpusDuration on a seekable reader over `data`; it ends on every input. */
  method GetOpusDuration(data: seq<Byte>) returns (total: int, duration: real)
    ensures total == MaxGranule(Scan(data, 0))
    ensures duration == total as real / 48000.0
  {
    total := 0;
    var pos: nat := 0;
    ghost var seen := [];
    var more := true;
    while more
      invariant if more then seen + Scan(data, pos) == Scan(data, 0) else seen == Scan(data, 0)
      invariant total == MaxGranule(seen)
      decreases more, if pos < |data| then |data| - pos else 0
    {
      var step := ReadPageHeader(data, pos);
      match step
      case Short =>
        more := false;
      case NoPage =>
        pos := pos + 1;
      case Truncated(granulePos) =>
        MaxGranuleAppend(seen, (pos, granulePos));
        seen := seen + [(pos, granulePos)];
        total := if granulePos > total then granulePos else total;
        more := false;
      case Found(granulePos, next) =>
        MaxGranuleAppend(seen, (pos, granulePos));
        VisitNext(data, pos, seen);
        seen := seen + [(pos, granulePos)];
        total := if granulePos > total then granulePos else total;
        pos := next;
    }
    duration := total as real / 48000.0;
  }

  /** The reads and seeks of one iteration. */
  method ReadPageHeader(data: seq<Byte>, start: nat) returns (step: Step)
    ensures step == At(data, start)
  {
    // r.Read at EOF, or fewer than 27 bytes
    if start + HEADER > |data| {
      return Short;
    }
    // Seek(-26) after reading 27 bytes
    if data[start..start + 4] != CAPTURE {
      return NoPage;
    }
    var granulePos := Signed(FromLittleEndian(data[start + 6..start + 14]));
    var numSegments := data[start + 26];
    var pos := start + HEADER;
    if pos + numSegments > |data| {
      return Truncated(granulePos);
    }
    var pageSize := SumSegments(data[pos..pos + numSegments]);
    return Found(granulePos, pos + numSegments + pageSize);
  }

  method SumSegments(table: seq<Byte>) returns (size: nat)
    ensures size == Sum(table)
  {
    size := 0;
    var i := |table|;
    while i > 0
      invariant 0 <= i <= |table| && size == Sum(table[i..])
    {
      i := i - 1;
      assert table[i..][1..] == table[i + 1..];
      size := size + table[i];
    }
  }

  // Well-formed files

  /** A page: `ids` are the serial number, sequence number and checksum fields. */
  datatype Page = Page(version: Byte, flags: Byte, granule: int, ids: seq<Byte>, lacing: seq<Byte>, body: seq<Byte>)

  ghost predicate WellFormed(p: Page) {
    -TWO_63 <= p.granule < TWO_63 && |p.ids| == 12 && |p.lacing| < 256 && |p.body| == Sum(p.lacing)
  }

  function PageSize(p: Page): nat {
    HEADER + |p.lacing| + |p.body|
  }

  function Encode(p: Page): (bs: seq<Byte>)
    requires WellFormed(p)
    ensures |bs| == PageSize(p)
  {
    CAPTURE + [p.version, p.flags] + ToLittleEndian(Unsigned(p.granule), 8) + p.ids + [|p.lacing|] + p.lacing + p.body
  }

  datatype Chunk = Junk(bytes: seq<Byte>) | Whole(page: Page)

  ghost predicate Sound(chunks: seq<Chunk>) {
    forall i :: 0 <= i < |chunks| && chunks[i].Whole? ==> WellFormed(chunks[i].page)
  }

  function Bytes(c: Chunk): seq<Byte>
    requires c.Whole? ==> WellFormed(c.page)
  {
    if c.Junk? then c.bytes else Encode(c.page)
  }

  function Size(c: Chunk): nat {
    if c.Junk? then |c.bytes| else PageSize(c.page)
  }

  ghost function File(chunks: seq<Chunk>): seq<Byte>
    requires Sound(chunks)
  {
    if chunks == [] then [] else Bytes(chunks[0]) + File(chunks[1..])
  }

  /** No readable page header begins inside junk, `from` being where the chunks start in the file. */
  ghost predicate JunkIsQuiet(file: seq<Byte>, chunks: seq<Chunk>, from: nat)
    requires Sound(chunks)
    decreases |chunks|
  {
    chunks == [] ||
    (&& (chunks[0].Junk? ==> Quiet(file, from, from + |chunks[0].bytes|))
     && JunkIsQuiet(file, chunks[1..], from + Size(chunks[0])))
  }

  predicate Quiet(file: seq<Byte>, from: nat, end: nat) {
    forall i :: from <= i < end && i + HEADER <= |file| ==> !PageAt(file, i)
  }

  /** Where the pages of a file begin, with their granule positions. */
  ghost function Pages(chunks: seq<Chunk>, from: nat): seq<(nat, int)>
    requires Sound(chunks)
    decreases |chunks|
  {
    if chunks == [] then []
    else
      (if chunks[0].Whole? then [(from, chunks[0].page.granule)] else []) +
      Pages(chunks[1..], from + Size(chunks[0]))
  }

  lemma {:induction false} SkipJunk(data: seq<Byte>, pos: nat, end: nat)
    requires pos <= end && Quiet(data, pos, end)
    ensures Scan(data, pos) == Scan(data, end)
    decreases end - pos
  {
    if pos < end {
      SkipJunk(data, pos + 1, end);
    }
  }

  /** The scanner stops in junk that is not quiet. */
  lemma {:induction false} StopInJunk(data: seq<Byte>, pos: nat, end: nat)
    requires pos <= end && !Quiet(data, pos, end)
    ensures Scan(data, pos) != [] && Scan(data, pos)[0].0 < end
    decreases end - pos
  {
    if At(data, pos).NoPage? {
      StopInJunk(data, pos + 1, end);
    }
  }

  lemma {:induction false} PagesComeLater(chunks: seq<Chunk>, from: nat)
    requires Sound(chunks)
    ensures Pages(chunks, from) != [] ==> Pages(chunks, from)[0].0 >= from
    decreases |chunks|
  {
    if chunks != [] && chunks[0].Junk? {
      PagesComeLater(chunks[1..], from + Size(chunks[0]));
    }
  }

  /** The pieces of a concatenation, at their offsets. */
  lemma Pieces(a: seq<Byte>, b: seq<Byte>, c: seq<Byte>, d: seq<Byte>)
    ensures var s := a + b + c + d;
            && s[..|a|] == a
            && s[|a|..|a| + |b|] == b
            && s[|a| + |b|..|a| + |b| + |c|] == c
  {
  }

  lemma EncodedFields(p: Page)
    requires WellFormed(p)
    ensures var e := Encode(p);
            && e[..4] == CAPTURE
            && e[6..14] == ToLittleEndian(Unsigned(p.granule), 8)
            && e[26..27] == [|p.lacing|]
            && e[HEADER..HEADER + |p.lacing|] == p.lacing
  {
    var g := ToLittleEndian(Unsigned(p.granule), 8);
    var start := CAPTURE + [p.version, p.flags];
    var count: seq<Byte> := [|p.lacing|];
    assert start[..4] == CAPTURE;
    Pieces(start, g, p.ids, count + p.lacing + p.body);
    Pieces(start + g + p.ids, count, p.lacing, p.body);
    assert Encode(p) == start + g + p.ids + count + p.lacing + p.body;
    assert Encode(p) == start + g + p.ids + (count + p.lacing + p.body);
  }

  /** The header fields of an encoded page, read at its position in the file. */
  lemma HeaderFields(data: seq<Byte>, pos: nat, p: Page)
    requires WellFormed(p) && pos + PageSize(p) <= |data| && data[pos..pos + PageSize(p)] == Encode(p)
    ensures PageAt(data, pos)
    ensures Signed(FromLittleEndian(data[pos + 6..pos + 14])) == p.granule
    ensures data[pos + 26] == |p.lacing|
    ensures data[pos + HEADER..pos + HEADER + |p.lacing|] == p.lacing
  {
    var end := pos + PageSize(p);
    EncodedFields(p);
    SliceOfSlice(data, pos, end, 0, 4);
    SliceOfSlice(data, pos, end, 6, 14);
    SliceOfSlice(data, pos, end, 26, 27);
    SliceOfSlice(data, pos, end, HEADER, HEADER + |p.lacing|);
    assert data[pos + 26] == data[pos + 26..pos + 27][0];
    PowerOf8();
    LittleEndianRoundTrip(Unsigned(p.granule), 8);
  }

  lemma RestOfFile(file: seq<Byte>, chunks: seq<Chunk>, from: nat)
    requires Sound(chunks) && chunks != [] && from <= |file| && file[from..] == File(chunks)
    ensures var next := from + Size(chunks[0]);
            next <= |file| && file[from..next] == Bytes(chunks[0]) && file[next..] == File(chunks[1..])
  {
    SliceOfConcat(file, from, Bytes(chunks[0]), File(chunks[1..]));
  }

  /** What an iteration finds at an encoded page. */
  lemma FoundPage(data: seq<Byte>, pos: nat, p: Page)
    requires WellFormed(p) && pos + PageSize(p) <= |data| && data[pos..pos + PageSize(p)] == Encode(p)
    ensures At(data, pos) == Found(p.granule, pos + PageSize(p))
  {
    HeaderFields(data, pos, p);
  }

  lemma ScanFound(data: seq<Byte>, pos: nat, granule: int, next: nat)
    requires At(data, pos) == Found(granule, next)
    ensures Scan(data, pos) == [(pos, granule)] + Scan(data, next)
  {
  }

  /** The bytes of a page stand at `from`. */
  ghost predicate PageHere(file: seq<Byte>, from: nat, p: Page) {
    WellFormed(p) && from + PageSize(p) <= |file| && file[from..from + PageSize(p)] == Encode(p)
  }

  lemma FirstPage(file: seq<Byte>, chunks: seq<Chunk>, from: nat)
    requires Sound(chunks) && chunks != [] && from <= |file| && file[from..] == File(chunks)
    ensures chunks[0].Whole? ==> PageHere(file, from, chunks[0].page)
  {
    RestOfFile(file, chunks, from);
  }

  lemma PageScanned(file: seq<Byte>, from: nat, p: Page)
    requires PageHere(file, from, p)
    ensures Scan(file, from) == [(from, p.granule)] + Scan(file, from + PageSize(p))
  {
    FoundPage(file, from, p);
    ScanFound(file, from, p.granule, from + PageSize(p));
  }

  /** From `from` on, the scanner stops at exactly the page starts just when the junk is quiet. */
  ghost predicate FindsPages(file: seq<Byte>, chunks: seq<Chunk>, from: nat)
    requires Sound(chunks)
  {
    Scan(file, from) == Pages(chunks, from) <==> JunkIsQuiet(file, chunks, from)
  }

  lemma FindsNone(file: seq<Byte>)
    ensures FindsPages(file, [], |file|)
  {
  }

  /** The first chunk, given what holds after it. */
  lemma FindsNext(file: seq<Byte>, chunks: seq<Chunk>, from: nat)
    requires Sound(chunks) && chunks != [] && (chunks[0].Whole? ==> PageHere(file, from, chunks[0].page))
    requires FindsPages(file, chunks[1..], from + Size(chunks[0]))
    ensures FindsPages(file, chunks, from)
  {
    if chunks[0].Whole? {
      PageScanned(file, from, chunks[0].page);
      AfterPage(file, chunks, from, Scan(file, from), Scan(file, from + Size(chunks[0])));
    } else {
      AfterJunk(file, chunks, from);
    }
  }

  /** Every page of the chunks stands at its offset, and the chunks reach the end. */
  ghost predicate Placed(file: seq<Byte>, chunks: seq<Chunk>, from: nat)
    requires Sound(chunks)
    decreases |chunks|
  {
    if chunks == [] then from == |file|
    else
      && (chunks[0].Whole? ==> PageHere(file, from, chunks[0].page))
      && Placed(file, chunks[1..], from + Size(chunks[0]))
  }

  lemma {:induction false} FilePlaced(file: seq<Byte>, chunks: seq<Chunk>, from: nat)
    requires Sound(chunks) && from <= |file| && file[from..] == File(chunks)
    ensures Placed(file, chunks, from)
    decreases |chunks|
  {
    if chunks != [] {
      RestOfFile(file, chunks, from);
      FirstPage(file, chunks, from);
      FilePlaced(file, chunks[1..], from + Size(chunks[0]));
    }
  }

  lemma {:induction false} ScanFrom(file: seq<Byte>, chunks: seq<Chunk>, from: nat)
    requires Sound(chunks) && Placed(file, chunks, from)
    ensures FindsPages(file, chunks, from)
    decreases |chunks|
  {
    if chunks == [] {
      FindsNone(file);
    } else {
      ScanFrom(file, chunks[1..], from + Size(chunks[0]));
      FindsNext(file, chunks, from);
    }
  }

  lemma AfterPage(file: seq<Byte>, chunks: seq<Chunk>, from: nat, found: seq<(nat, int)>, rest: seq<(nat, int)>)
    requires Sound(chunks) && chunks != [] && chunks[0].Whole?
    requires found == [(from, chunks[0].page.granule)] + rest
    requires var next := from + Size(chunks[0]);
             rest == Pages(chunks[1..], next) <==> JunkIsQuiet(file, chunks[1..], next)
    ensures found == Pages(chunks, from) <==> JunkIsQuiet(file, chunks, from)
  {
    SameTail((from, chunks[0].page.granule), rest, Pages(chunks[1..], from + Size(chunks[0])));
  }

  lemma AfterJunk(file: seq<Byte>, chunks: seq<Chunk>, from: nat)
    requires Sound(chunks) && chunks != [] && chunks[0].Junk?
    requires var next := from + Size(chunks[0]);
             Scan(file, next) == Pages(chunks[1..], next) <==> JunkIsQuiet(file, chunks[1..], next)
    ensures Scan(file, from) == Pages(chunks, from) <==> JunkIsQuiet(file, chunks, from)
  {
    var next := from + Size(chunks[0]);
    assert [] + Pages(chunks[1..], next) == Pages(chunks[1..], next);
    if Quiet(file, from, next) {
      SkipJunk(file, from, next);
    } else {
      StopInJunk(file, from, next);
      PagesComeLater(chunks[1..], next);
    }
  }

  lemma SameTail(v: (nat, int), x: seq<(nat, int)>, y: seq<(nat, int)>)
    ensures [v] + x == [v] + y <==> x == y
  {
    assert ([v] + x)[1..] == x && ([v] + y)[1..] == y;
  }

  /** The largest of zero and the granule positions of the file's pages. */
  ghost function Largest(chunks: seq<Chunk>): (m: int)
    ensures m >= 0
  {
    if chunks == [] then 0
    else
      var m := Largest(chunks[1..]);
      if chunks[0].Whole? && chunks[0].page.granule > m then chunks[0].page.granule else m
  }

  lemma {:induction false} LargestIsLargest(chunks: seq<Chunk>)
    ensures forall c :: c in chunks && c.Whole? ==> c.page.granule <= Largest(chunks)
    ensures Largest(chunks) == 0 || exists c :: c in chunks && c.Whole? && c.page.granule == Largest(chunks)
    decreases |chunks|
  {
    if chunks != [] {
      LargestIsLargest(chunks[1..]);
      assert forall c :: c in chunks <==> c == chunks[0] || c in chunks[1..];
    }
  }

  lemma {:induction false} MaxGranuleConcat(a: seq<(nat, int)>, b: seq<(nat, int)>)
    ensures MaxGranule(a + b) == if MaxGranule(a) > MaxGranule(b) then MaxGranule(a) else MaxGranule(b)
    decreases |b|
  {
    if b == [] {
      assert a + b == a;
      MaxGranuleNonNegative(a);
    } else {
      assert (a + b)[..|a + b| - 1] == a + b[..|b| - 1];
      MaxGranuleConcat(a, b[..|b| - 1]);
    }
  }

  lemma MaxGranuleCons(v: (nat, int), visits: seq<(nat, int)>)
    ensures MaxGranule([v] + visits) == if v.1 > MaxGranule(visits) then v.1 else MaxGranule(visits)
  {
    MaxGranuleConcat([v], visits);
    MaxGranuleNonNegative(visits);
    assert [v][..0] == [];
    assert MaxGranule([v]) == if v.1 > 0 then v.1 else 0;
  }

  lemma {:induction false} MaxGranuleNonNegative(visits: seq<(nat, int)>)
    ensures MaxGranule(visits) >= 0
    decreases |visits|
  {
    if visits != [] {
      MaxGranuleNonNegative(visits[..|visits| - 1]);
    }
  }

  lemma {:induction false} LargestOfPages(chunks: seq<Chunk>, from: nat)
    requires Sound(chunks)
    ensures MaxGranule(Pages(chunks, from)) == Largest(chunks)
    decreases |chunks|
  {
    if chunks != [] {
      var rest := Pages(chunks[1..], from + Size(chunks[0]));
      LargestOfPages(chunks[1..], from + Size(chunks[0]));
      if chunks[0].Whole? {
        MaxGranuleCons((from, chunks[0].page.granule), rest);
      } else {
        assert [] + rest == rest;
      }
    }
  }

  /** In a file of well-formed pages with junk anywhere between them, the scanner stops at exactly the
      page starts if and only if no readable header begins inside the junk; the result is then the
      largest of zero and the granule positions. */
  lemma ScannerFindsPages(chunks: seq<Chunk>)
    requires Sound(chunks)
    ensures Scan(File(chunks), 0) == Pages(chunks, 0) <==> JunkIsQuiet(File(chunks), chunks, 0)
    ensures JunkIsQuiet(File(chunks), chunks, 0) ==> MaxGranule(Scan(File(chunks), 0)) == Largest(chunks)
  {
    FilePlaced(File(chunks), chunks, 0);
    ScanFrom(File(chunks), chunks, 0);
    LargestOfPages(chunks, 0);
  }
}
