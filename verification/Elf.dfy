/** Needed libraries of an ELF image, both classes and byte orders (System V gABI, chapters 4 and 5). */
module Elf {
  import opened Findings

  type Byte = b: nat | b < 256
  type Bytes = seq<Byte>

  const PT_LOAD := 1
  const PT_DYNAMIC := 2
  const DT_NULL := 0
  const DT_NEEDED := 1
  const DT_STRTAB := 5
  const DT_STRSZ := 10
  const NAME_LIMIT := 256

  // --------------------------------------------------------------------------
  // Integers
  // --------------------------------------------------------------------------

  function Number(bytes: Bytes, little: bool): nat {
    if bytes == [] then 0
    else if little then bytes[0] + 256 * Number(bytes[1..], little)
    else 256 * Number(bytes[..|bytes| - 1], little) + bytes[|bytes| - 1]
  }

  /** The `width` bytes that spell `n`. */
  function Spell(n: nat, width: nat, little: bool): (b: Bytes)
    ensures |b| == width
    decreases width
  {
    if width == 0 then []
    else if little then [n % 256] + Spell(n / 256, width - 1, little)
    else Spell(n / 256, width - 1, little) + [n % 256]
  }

  lemma SpellStep(n: nat, b: Byte, width: nat, little: bool)
    ensures Spell(256 * n + b, width + 1, little) == if little then [b] + Spell(n, width, little) else Spell(n, width, little) + [b]
  {
    assert (256 * n + b) / 256 == n && (256 * n + b) % 256 == b;
  }

  /** Reading inverts spelling, in either byte order. */
  lemma {:induction false} SpelledBack(bytes: Bytes, little: bool)
    ensures Spell(Number(bytes, little), |bytes|, little) == bytes
  {
    hide Spell;
    if bytes != [] {
      if little {
        SpelledBack(bytes[1..], little);
        SpellStep(Number(bytes[1..], little), bytes[0], |bytes| - 1, little);
      } else {
        var k := |bytes| - 1;
        SpelledBack(bytes[..k], little);
        SpellStep(Number(bytes[..k], little), bytes[k], k, little);
      }
    }
  }

  function At(data: Bytes, pos: nat, width: nat, little: bool): nat
    requires pos + width <= |data|
  {
    Number(data[pos..pos + width], little)
  }

  // --------------------------------------------------------------------------
  // Headers
  // --------------------------------------------------------------------------

  /** Where a class keeps its fields. */
  datatype Layout = Layout(width: nat, phoffAt: nat, phentsizeAt: nat, phnumAt: nat,
                           phdrSize: nat, offsetAt: nat, vaddrAt: nat, fileszAt: nat)

  const LAYOUT32 := Layout(4, 28, 42, 44, 32, 4, 8, 16)
  const LAYOUT64 := Layout(8, 32, 54, 56, 56, 8, 16, 32)

  datatype Header = Header(wide: bool, little: bool, machine: nat) {
    function Fields(): Layout {
      if wide then LAYOUT64 else LAYOUT32
    }
    function EntrySize(): nat {
      2 * Fields().width
    }
  }

  /** The fields are where the structures of the gABI put them: `w` is the width of an address, an offset or a size. */
  lemma LayoutExactly(h: Header)
    ensures var f, w, lead := h.Fields(), if h.wide then 8 else 4, if h.wide then 4 + 4 else 4;
      && f.width == w && h.EntrySize() == w + w
      && f.phoffAt == 16 + 2 + 2 + 4 + w && f.phentsizeAt == 16 + 2 + 2 + 4 + w + w + w + 4 + 2 && f.phnumAt == f.phentsizeAt + 2
      && f.offsetAt == lead && f.vaddrAt == lead + w && f.fileszAt == lead + w + w + w && f.phdrSize == 4 + 4 + 6 * w
  {
  }

  function ParseHeader(data: Bytes): (r: Option<Header>)
    ensures r.Some? ==> |data| >= 64
  {
    if |data| < 64 || data[..4] != [0x7f, 0x45, 0x4c, 0x46] then None
    else if data[5] != 1 && data[5] != 2 then None
    else if data[4] != 1 && data[4] != 2 then None
    else Some(Header(data[4] == 2, data[5] == 1, At(data, 18, 2, data[5] == 1)))
  }

  /** Exactly the images of 64 bytes or more with the magic number, a known class and a known byte order are read. */
  lemma ParseHeaderExactly(data: Bytes, h: Header)
    ensures ParseHeader(data) == Some(h) <==>
      |data| >= 64 && data[..6] == Identified(h) && h.machine == if h.little then Word(data[18], data[19]) else Word(data[19], data[18])
  {
    if |data| >= 64 {
      forall little ensures At(data, 18, 2, little) == if little then Word(data[18], data[19]) else Word(data[19], data[18]) {
        TwoByteNumber(data[18..20], little);
      }
      hide At;
      assert data[..4] == data[..6][..4] && data[4] == data[..6][4] && data[5] == data[..6][5];
      assert data[..6] == data[..4] + [data[4], data[5]];
      assert Identified(h)[..4] == [0x7f, 0x45, 0x4c, 0x46];
    }
  }

  function Word(low: nat, high: nat): nat { 256 * high + low }

  function Identified(h: Header): Bytes {
    [0x7f, 0x45, 0x4c, 0x46, if h.wide then 2 else 1, if h.little then 1 else 2]
  }

  lemma OneByteNumber(b: Byte, little: bool)
    ensures Number([b], little) == b
  {
    assert [b][1..] == [] && [b][..0] == [];
  }

  lemma TwoByteNumber(b: Bytes, little: bool)
    requires |b| == 2
    ensures Number(b, little) == if little then Word(b[0], b[1]) else Word(b[1], b[0])
  {
    OneByteNumber(b[0], little);
    OneByteNumber(b[1], little);
    assert b[1..] == [b[1]] && b[..1] == [b[0]];
  }

  datatype Segment = Segment(offset: nat, vaddr: nat, filesz: nat)
  datatype ProgramHeader = ProgramHeader(kind: nat, segment: Segment)

  function HeaderCount(data: Bytes, h: Header): nat
    requires |data| >= 64
  {
    At(data, h.Fields().phnumAt, 2, h.little)
  }

  function HeaderAt(data: Bytes, h: Header, i: nat): nat
    requires |data| >= 64
  {
    At(data, h.Fields().phoffAt, h.Fields().width, h.little) + i * At(data, h.Fields().phentsizeAt, 2, h.little)
  }

  predicate InFile(data: Bytes, h: Header, i: nat)
    requires |data| >= 64
  {
    HeaderAt(data, h, i) + h.Fields().phdrSize <= |data|
  }

  function ReadHeader(data: Bytes, h: Header, i: nat): ProgramHeader
    requires |data| >= 64 && InFile(data, h, i)
  {
    var pos, f := HeaderAt(data, h, i), h.Fields();
    ProgramHeader(At(data, pos, 4, h.little),
                  Segment(At(data, pos + f.offsetAt, f.width, h.little), At(data, pos + f.vaddrAt, f.width, h.little),
                          At(data, pos + f.fileszAt, f.width, h.little)))
  }

  /** Of the first `n` program headers, those that lie in the file. */
  function Headers(data: Bytes, h: Header, n: nat): seq<ProgramHeader>
    requires |data| >= 64
  {
    if n == 0 then []
    else Headers(data, h, n - 1) + if InFile(data, h, n - 1) then [ReadHeader(data, h, n - 1)] else []
  }

  function Loads(hs: seq<ProgramHeader>): seq<Segment> {
    if hs == [] then []
    else
      var last := hs[|hs| - 1];
      Loads(hs[..|hs| - 1]) + if last.kind == PT_LOAD then [last.segment] else []
  }

  /** The last dynamic header wins; none reads as offset and size 0. */
  function Dynamic(hs: seq<ProgramHeader>): (nat, nat) {
    if hs == [] then (0, 0)
    else
      var last := hs[|hs| - 1];
      if last.kind == PT_DYNAMIC then (last.segment.offset, last.segment.filesz) else Dynamic(hs[..|hs| - 1])
  }

  /** Once a header reaches past the end of the file, so does every later one. */
  lemma {:induction false} NoLaterHeader(data: Bytes, h: Header, i: nat, n: nat)
    requires |data| >= 64 && i <= n && !InFile(data, h, i)
    ensures Headers(data, h, n) == Headers(data, h, i)
  {
    if i < n {
      LaterHeader(data, h, i, n - 1);
      hide HeaderAt, InFile, ReadHeader;
      NoLaterHeader(data, h, i, n - 1);
    }
  }

  lemma LaterHeader(data: Bytes, h: Header, i: nat, k: nat)
    requires |data| >= 64 && i <= k && !InFile(data, h, i)
    ensures !InFile(data, h, k)
  {
    hide At;
    Multiples(i, k, At(data, h.Fields().phentsizeAt, 2, h.little));
  }

  lemma Multiples(a: nat, b: nat, size: nat)
    requires a <= b
    ensures a * size <= b * size
  {
  }

  method LoadSegments(data: Bytes, h: Header) returns (loads: seq<Segment>, dynamic: (nat, nat))
    requires |data| >= 64
    ensures loads == Loads(Headers(data, h, HeaderCount(data, h)))
    ensures dynamic == Dynamic(Headers(data, h, HeaderCount(data, h)))
  {
    hide At, HeaderAt, ReadHeader, InFile;
    loads, dynamic := [], (0, 0);
    var n, i := HeaderCount(data, h), 0;
    while i < n && InFile(data, h, i)
      invariant i <= n
      invariant loads == Loads(Headers(data, h, i)) && dynamic == Dynamic(Headers(data, h, i))
    {
      ghost var before := Headers(data, h, i);
      var p := ReadHeader(data, h, i);
      assert Headers(data, h, i + 1) == before + [p] && (before + [p])[..|before|] == before;
      if p.kind == PT_LOAD {
        loads := loads + [p.segment];
      } else if p.kind == PT_DYNAMIC {
        dynamic := (p.segment.offset, p.segment.filesz);
      }
      i := i + 1;
    }
    if i < n {
      NoLaterHeader(data, h, i, n);
    }
  }

  // --------------------------------------------------------------------------
  // Addresses
  // --------------------------------------------------------------------------

  predicate Covers(s: Segment, vaddr: nat) {
    s.vaddr <= vaddr < s.vaddr + s.filesz
  }

  /** File offset of an address, through the first load segment that covers it. */
  method VaddrToOffset(vaddr: nat, loads: seq<Segment>) returns (r: Option<nat>)
    ensures r == OffsetOf(vaddr, loads)
  {
    for i := 0 to |loads|
      invariant OffsetOf(vaddr, loads) == OffsetOf(vaddr, loads[i..])
    {
      if Covers(loads[i], vaddr) {
        return Some(loads[i].offset + (vaddr - loads[i].vaddr));
      }
      assert loads[i..][1..] == loads[i + 1..];
    }
    r := None;
  }

  function OffsetOf(vaddr: nat, loads: seq<Segment>): Option<nat> {
    if loads == [] then None
    else if Covers(loads[0], vaddr) then Some(loads[0].offset + (vaddr - loads[0].vaddr))
    else OffsetOf(vaddr, loads[1..])
  }

  /** Offsets are found exactly for covered addresses, and by the first segment that covers them. */
  lemma {:induction false} OffsetOfExactly(vaddr: nat, loads: seq<Segment>, pos: nat)
    ensures OffsetOf(vaddr, loads) == Some(pos) <==> exists i :: FirstCover(vaddr, loads, i) && pos - loads[i].offset == vaddr - loads[i].vaddr
  {
    if loads != [] && !Covers(loads[0], vaddr) {
      OffsetOfExactly(vaddr, loads[1..], pos);
      forall i ensures FirstCover(vaddr, loads, i + 1) <==> FirstCover(vaddr, loads[1..], i) {
        assert forall j | 0 <= j < |loads| - 1 :: loads[1..][j] == loads[j + 1];
        assert forall j | 0 < j < |loads| :: loads[j] == loads[1..][j - 1];
      }
      if i :| FirstCover(vaddr, loads, i) && pos - loads[i].offset == vaddr - loads[i].vaddr {
        assert FirstCover(vaddr, loads[1..], i - 1);
      }
      if i :| FirstCover(vaddr, loads[1..], i) && pos - loads[1..][i].offset == vaddr - loads[1..][i].vaddr {
        assert FirstCover(vaddr, loads, i + 1);
      }
    } else if loads != [] {
      assert FirstCover(vaddr, loads, 0);
    }
  }

  /** Segment `i` is the first one whose file bytes the address lies among. */
  predicate FirstCover(vaddr: nat, loads: seq<Segment>, i: int) {
    && 0 <= i < |loads| && 0 <= vaddr - loads[i].vaddr < loads[i].filesz
    && forall j | 0 <= j < i :: !(0 <= vaddr - loads[j].vaddr < loads[j].filesz)
  }

  // --------------------------------------------------------------------------
  // The dynamic section
  // --------------------------------------------------------------------------

  datatype Dyn = Dyn(tag: nat, val: nat)

  predicate Fits(data: Bytes, h: Header, section: (nat, nat), n: nat) {
    section.0 + section.1 <= |data| && n * h.EntrySize() <= section.1
  }

  function ReadEntry(data: Bytes, h: Header, section: (nat, nat), i: nat): Dyn
    requires Fits(data, h, section, i + 1)
  {
    var pos, w := section.0 + i * h.EntrySize(), h.Fields().width;
    Dyn(At(data, pos, w, h.little), At(data, pos + w, w, h.little))
  }

  /** The first `n` entries of the section. */
  function Entries(data: Bytes, h: Header, section: (nat, nat), n: nat): (r: seq<Dyn>)
    requires Fits(data, h, section, n)
    ensures |r| == n
  {
    seq(n, i requires 0 <= i < n => assert (i + 1) * h.EntrySize() <= n * h.EntrySize(); ReadEntry(data, h, section, i))
  }

  /** Up to the first null entry. */
  function Live(entries: seq<Dyn>): seq<Dyn> {
    if entries == [] || entries[0].tag == DT_NULL then [] else [entries[0]] + Live(entries[1..])
  }

  /** The last value with `tag`; none reads as 0. */
  function LastOf(entries: seq<Dyn>, tag: nat): nat {
    if entries == [] then 0
    else
      var e := entries[|entries| - 1];
      if e.tag == tag then e.val else LastOf(entries[..|entries| - 1], tag)
  }

  function Needed(entries: seq<Dyn>): seq<nat> {
    if entries == [] then []
    else
      var e := entries[|entries| - 1];
      Needed(entries[..|entries| - 1]) + if e.tag == DT_NEEDED then [e.val] else []
  }

  lemma {:induction false} LiveIs(entries: seq<Dyn>, k: nat)
    requires k <= |entries| && (forall i | 0 <= i < k :: entries[i].tag != DT_NULL) && (k < |entries| ==> entries[k].tag == DT_NULL)
    ensures Live(entries) == entries[..k]
  {
    if k > 0 {
      LiveIs(entries[1..], k - 1);
      assert entries[..k] == [entries[0]] + entries[1..][..k - 1];
    }
  }

  method ReadDynamic(data: Bytes, h: Header, section: (nat, nat)) returns (strtab: nat, strsz: nat, needed: seq<nat>)
    requires Fits(data, h, section, 0)
    ensures Fits(data, h, section, section.1 / h.EntrySize())
    ensures var live := Live(Entries(data, h, section, section.1 / h.EntrySize()));
      strtab == LastOf(live, DT_STRTAB) && strsz == LastOf(live, DT_STRSZ) && needed == Needed(live)
  {
    hide At, Live;
    var size := h.EntrySize();
    ghost var n := section.1 / size;
    ghost var all := Entries(data, h, section, n);
    strtab, strsz, needed := 0, 0, [];
    var i := 0;
    while (i + 1) * size <= section.1
      invariant i <= n && forall k | 0 <= k < i :: all[k].tag != DT_NULL
      invariant strtab == LastOf(all[..i], DT_STRTAB) && strsz == LastOf(all[..i], DT_STRSZ) && needed == Needed(all[..i])
      decreases n - i
    {
      EntryExists(i, section.1, size);
      var e := ReadEntry(data, h, section, i);
      assert all[i] == e && all[..i + 1][..i] == all[..i] && all[..i + 1][i] == e;
      if e.tag == DT_NULL {
        break;
      }
      if e.tag == DT_STRTAB {
        strtab := e.val;
      } else if e.tag == DT_STRSZ {
        strsz := e.val;
      } else if e.tag == DT_NEEDED {
        needed := needed + [e.val];
      }
      i := i + 1;
    }
    EntryExists(i, section.1, size);
    LiveIs(all, i);
  }

  /** The whole entries of a section are those before its last partial one. */
  lemma EntryExists(i: nat, total: nat, size: nat)
    requires size > 0
    ensures (i + 1) * size <= total <==> i < total / size
  {
    var n := total / size;
    if i < n {
      Multiples(i + 1, n, size);
    } else {
      Multiples(n + 1, i + 1, size);
    }
  }

  // --------------------------------------------------------------------------
  // Names
  // --------------------------------------------------------------------------

  function FindNul(data: Bytes, start: nat, end: int): (r: Option<nat>)
    requires start <= |data|
    ensures r.Some? ==> start <= r.value < |data| && r.value < end && data[r.value] == 0 && 0 !in data[start..r.value]
    ensures r.None? ==> forall i | start <= i < end && i < |data| :: data[i] != 0
    decreases |data| - start
  {
    if start >= end || start == |data| then None
    else if data[start] == 0 then Some(start)
    else
      var r := FindNul(data, start + 1, end);
      assert r.Some? ==> data[start..r.value] == [data[start]] + data[start + 1..r.value];
      r
  }

  /** The name at index `idx` of the string table, if it has one. */
  function StringAt(data: Bytes, table: nat, limit: int, idx: nat): Option<Bytes> {
    var start := table + idx;
    if start >= |data| then None
    else
      match FindNul(data, start, if start + NAME_LIMIT < table + limit then start + NAME_LIMIT else table + limit)
      case None => None
      case Some(end) => if end == start then None else Some(data[start..end])
  }

  /** `name` is the NUL-terminated string at `idx`: not empty, inside the table and the file, under the limit. */
  ghost predicate IsName(data: Bytes, table: nat, limit: int, idx: nat, name: Bytes) {
    var start, end := table + idx, table + idx + |name|;
    && 0 < |name| < 256 && 0 !in name
    && end < |data| && end < table + limit
    && data[start..end] == name && data[end] == 0
  }

  lemma {:induction false} FindNulIs(data: Bytes, start: nat, end: nat, stop: int)
    requires start <= end < |data| && end < stop && data[end] == 0 && forall i | start <= i < end :: data[i] != 0
    ensures FindNul(data, start, stop) == Some(end)
    decreases end - start
  {
    if start < end {
      FindNulIs(data, start + 1, end, stop);
    }
  }

  lemma StringAtExactly(data: Bytes, table: nat, limit: int, idx: nat, name: Bytes)
    ensures StringAt(data, table, limit, idx) == Some(name) <==> IsName(data, table, limit, idx, name)
  {
    var start := table + idx;
    if IsName(data, table, limit, idx, name) {
      assert forall i | start <= i < start + |name| :: data[i] == name[i - start];
      FindNulIs(data, start, start + |name|, if start + NAME_LIMIT < table + limit then start + NAME_LIMIT else table + limit);
    }
  }

  function Names(data: Bytes, table: nat, limit: int, needed: seq<nat>): seq<Bytes> {
    if needed == [] then []
    else
      var last := StringAt(data, table, limit, needed[|needed| - 1]);
      Names(data, table, limit, needed[..|needed| - 1]) + if last.Some? then [last.value] else []
  }

  /** The names are exactly the strings that the needed entries point at. */
  lemma {:induction false} NamesExactly(data: Bytes, table: nat, limit: int, needed: seq<nat>, name: Bytes)
    ensures name in Names(data, table, limit, needed) <==> exists i :: 0 <= i < |needed| && IsName(data, table, limit, needed[i], name)
  {
    hide StringAt, IsName;
    if needed != [] {
      var k := |needed| - 1;
      NamesExactly(data, table, limit, needed[..k], name);
      StringAtExactly(data, table, limit, needed[k], name);
      if i :| 0 <= i < k && IsName(data, table, limit, needed[i], name) {
        assert needed[..k][i] == needed[i];
      }
    }
  }

  method ReadNames(data: Bytes, table: nat, limit: int, needed: seq<nat>) returns (libs: seq<Bytes>)
    ensures libs == Names(data, table, limit, needed)
  {
    libs := [];
    for i := 0 to |needed|
      invariant libs == Names(data, table, limit, needed[..i])
    {
      assert needed[..i + 1][..i] == needed[..i];
      var name := StringAt(data, table, limit, needed[i]);
      if name.Some? {
        libs := libs + [name.value];
      }
    }
    assert needed[..|needed|] == needed;
  }

  // --------------------------------------------------------------------------
  // Linked libraries
  // --------------------------------------------------------------------------

  /** The reference reading: what each table of the image says, one after the other. */
  ghost function Libraries(data: Bytes): seq<Bytes> {
    match ParseHeader(data)
    case None => []
    case Some(h) =>
      var headers := Headers(data, h, HeaderCount(data, h));
      var section := Dynamic(headers);
      if section.0 == 0 || !Fits(data, h, section, section.1 / h.EntrySize()) then []
      else
        var live := Live(Entries(data, h, section, section.1 / h.EntrySize()));
        var table := OffsetOf(LastOf(live, DT_STRTAB), Loads(headers));
        if LastOf(live, DT_STRTAB) == 0 || table.None? then []
        else Names(data, table.value, TableSize(data, LastOf(live, DT_STRSZ), table.value), Needed(live))
  }

  /** A string table without a size reaches to the end of the file. */
  ghost function TableSize(data: Bytes, strsz: nat, table: nat): int {
    if strsz != 0 then strsz else |data| - table
  }

  lemma NoneNeeded(data: Bytes)
    ensures forall table, limit :: Names(data, table, limit, []) == []
  {
  }

  method LinkedLibraries(data: Bytes) returns (libs: seq<Bytes>)
    ensures libs == Libraries(data)
  {
    hide ParseHeader, Headers, HeaderCount, Dynamic, Loads, Live, LastOf, Needed, OffsetOf;
    libs := [];
    var header := ParseHeader(data);
    if header.None? {
      return;
    }
    var h := header.value;
    var loads, section := LoadSegments(data, h);
    assert section.1 / h.EntrySize() * h.EntrySize() <= section.1;
    if section.0 == 0 || section.0 + section.1 > |data| {
      return;
    }
    var strtab, strsz, needed := ReadDynamic(data, h, section);
    if strtab == 0 || needed == [] {
      NoneNeeded(data);
      return;
    }
    var table := VaddrToOffset(strtab, loads);
    if table.None? {
      return;
    }
    libs := ReadNames(data, table.value, if strsz == 0 then |data| - table.value else strsz, needed);
  }

  // --------------------------------------------------------------------------
  // A packed string table is read back
  // --------------------------------------------------------------------------

  function Pack(names: seq<Bytes>): Bytes {
    if names == [] then [] else Pack(names[..|names| - 1]) + names[|names| - 1] + [0]
  }

  /** Where each name of a packed table starts. */
  function Indices(names: seq<Bytes>): (r: seq<nat>)
    ensures |r| == |names|
  {
    if names == [] then [] else Indices(names[..|names| - 1]) + [|Pack(names[..|names| - 1])|]
  }

  predicate Nameable(name: Bytes) {
    0 < |name| < NAME_LIMIT && 0 !in name
  }

  lemma PackedName(front: Bytes, name: Bytes, after: Bytes, table: nat, limit: int)
    requires Nameable(name) && table <= |front| && |front| + |name| < table + limit
    ensures StringAt(front + name + [0] + after, table, limit, |front| - table) == Some(name)
  {
    var data := front + name + [0] + after;
    assert data[|front|..|front| + |name|] == name;
    StringAtExactly(data, table, limit, |front| - table, name);
  }

  lemma NamesSnoc(data: Bytes, table: nat, limit: int, needed: seq<nat>, idx: nat, name: Bytes)
    requires StringAt(data, table, limit, idx) == Some(name)
    ensures Names(data, table, limit, needed + [idx]) == Names(data, table, limit, needed) + [name]
  {
    hide StringAt;
    assert (needed + [idx])[..|needed|] == needed;
  }

  /** The names of a packed table anywhere in the file are read back, all and in order. */
  lemma {:induction false} PackReadBack(before: Bytes, names: seq<Bytes>, after: Bytes, limit: int)
    requires (forall n | n in names :: Nameable(n)) && |Pack(names)| <= limit
    ensures Names(before + Pack(names) + after, |before|, limit, Indices(names)) == names
    decreases |names|
  {
    if names != [] {
      hide StringAt, Names, Nameable;
      var k := |names| - 1;
      var most, name := names[..k], names[k];
      var front, tail := before + Pack(most), name + [0] + after;
      PackText(before, Pack(most), name, after);
      PackReadBack(before, most, tail, limit);
      PackedName(front, name, after, |before|, limit);
      NamesSnoc(before + Pack(names) + after, |before|, limit, Indices(most), |Pack(most)|, name);
      assert names == most + [name];
    }
  }

  lemma PackText(before: Bytes, packed: Bytes, name: Bytes, after: Bytes)
    ensures before + (packed + name + [0]) + after == before + packed + (name + [0] + after)
    ensures before + (packed + name + [0]) + after == before + packed + name + [0] + after
  {
  }
}
