/** A printer of whole ELF images, and the proof that their needed libraries are read back. */
module ElfImage {
  import opened Elf
  import opened Findings

  // --------------------------------------------------------------------------
  // Bytes at a place
  // --------------------------------------------------------------------------

  predicate Holds(data: Bytes, pos: nat, part: Bytes) {
    pos + |part| <= |data| && data[pos..pos + |part|] == part
  }

  lemma HoldsParts(data: Bytes, pos: nat, a: Bytes, b: Bytes)
    ensures Holds(data, pos, a + b) <==> Holds(data, pos, a) && Holds(data, pos + |a|, b)
  {
    if pos + |a| + |b| <= |data| {
      assert data[pos..pos + |a + b|] == data[pos..pos + |a|] + data[pos + |a|..pos + |a| + |b|];
      assert data[pos..pos + |a + b|][..|a|] == data[pos..pos + |a|];
      assert data[pos..pos + |a + b|][|a|..] == data[pos + |a|..pos + |a| + |b|];
      assert (a + b)[..|a|] == a && (a + b)[|a|..] == b;
    }
  }

  function Zeros(n: nat): (z: Bytes)
    ensures |z| == n
  {
    seq(n, _ => 0)
  }

  function Power256(n: nat): nat { if n == 0 then 1 else 256 * Power256(n - 1) }

  lemma {:induction false} NumberOfSpelled(n: nat, width: nat, little: bool)
    requires n < Power256(width)
    ensures Number(Spell(n, width, little), little) == n
  {
    if width > 0 {
      NumberOfSpelled(n / 256, width - 1, little);
      var b := Spell(n, width, little);
      if little {
        assert b[0] == n % 256 && b[1..] == Spell(n / 256, width - 1, little);
      } else {
        assert b[..|b| - 1] == Spell(n / 256, width - 1, little) && b[|b| - 1] == n % 256;
      }
    }
  }

  lemma InThere(data: Bytes, pos: nat, part: Bytes)
    requires Holds(data, pos, part)
    ensures pos + |part| <= |data|
  {
  }

  /** A spelled field is read as its number. */
  lemma FieldRead(data: Bytes, pos: nat, n: nat, width: nat, little: bool)
    requires Holds(data, pos, Spell(n, width, little)) && n < Power256(width)
    ensures At(data, pos, width, little) == n
  {
    NumberOfSpelled(n, width, little);
  }

  lemma SmallNumbers(width: nat, n: nat)
    requires (width == 4 || width == 8) && n < Power256(4)
    ensures n < Power256(width)
  {
    if width == 8 {
      assert Power256(8) == 256 * Power256(7) && Power256(7) == 256 * Power256(6) && Power256(6) == 256 * Power256(5) && Power256(5) == 256 * Power256(4);
    }
  }

  lemma TwoBytes(n: nat)
    requires n < 0x1_0000
    ensures n < Power256(2) && n < Power256(4)
  {
    assert Power256(1) == 256 && Power256(2) == 0x1_0000 && Power256(3) == 0x100_0000;
  }

  // --------------------------------------------------------------------------
  // The printer
  // --------------------------------------------------------------------------

  function Ident(h: Header): (b: Bytes)
    ensures |b| == 20
  {
    [0x7f, 0x45, 0x4c, 0x46, if h.wide then 2 else 1, if h.little then 1 else 2] + Zeros(12) + Spell(h.machine, 2, h.little)
  }

  /** Where the program headers are, how large one is, and how many there are. */
  function TableFields(h: Header): (b: Bytes)
    ensures |b| == 44
  {
    var f := h.Fields();
    Zeros(f.phoffAt - 20) + (Spell(64, f.width, h.little) + (Zeros(f.phentsizeAt - f.phoffAt - f.width) + (
      Spell(f.phdrSize, 2, h.little) + (Spell(2, 2, h.little) + Zeros(64 - f.phnumAt - 2)))))
  }

  function PrintHeader(h: Header, p: ProgramHeader): (b: Bytes)
    ensures |b| == h.Fields().phdrSize
  {
    var f := h.Fields();
    Spell(p.kind, 4, h.little) + (Zeros(f.offsetAt - 4) + (Spell(p.segment.offset, f.width, h.little) + (Spell(p.segment.vaddr, f.width, h.little) + (
      Zeros(f.fileszAt - f.vaddrAt - f.width) + (Spell(p.segment.filesz, f.width, h.little) + Zeros(f.phdrSize - f.fileszAt - f.width))))))
  }

  function PrintEntry(h: Header, e: Dyn): (b: Bytes)
    ensures |b| == h.EntrySize()
  {
    Spell(e.tag, h.Fields().width, h.little) + Spell(e.val, h.Fields().width, h.little)
  }

  function PrintEntries(h: Header, entries: seq<Dyn>): (b: Bytes)
    ensures |b| == |entries| * h.EntrySize()
  {
    if entries == [] then []
    else
      var n := |entries| - 1;
      assert |entries| * h.EntrySize() == n * h.EntrySize() + h.EntrySize();
      PrintEntries(h, entries[..n]) + PrintEntry(h, entries[n])
  }

  /** Tags and header kinds are printed as the numbers that the gABI assigns to them. */
  function NeededEntries(needed: seq<nat>): (r: seq<Dyn>)
    ensures |r| == |needed|
  {
    seq(|needed|, i requires 0 <= i < |needed| => Dyn(1, needed[i]))
  }

  function DynamicEntries(names: seq<Bytes>, base: nat): seq<Dyn> {
    NeededEntries(Indices(names)) + [Dyn(5, base), Dyn(10, |Pack(names)|), Dyn(0, 0)]
  }

  function DynamicAt(h: Header): nat {
    64 + 2 * h.Fields().phdrSize
  }

  function StringsAt(h: Header, names: seq<Bytes>): nat {
    DynamicAt(h) + (|names| + 3) * h.EntrySize()
  }

  /** Headers, dynamic section, string table loaded at `base`, and anything behind. */
  function Image(h: Header, names: seq<Bytes>, base: nat, after: Bytes): Bytes {
    var load := ProgramHeader(1, Segment(StringsAt(h, names), base, |Pack(names)|));
    var dynamic := ProgramHeader(2, Segment(DynamicAt(h), 0, (|names| + 3) * h.EntrySize()));
    Ident(h) + (TableFields(h) + (PrintHeader(h, load) + (PrintHeader(h, dynamic) + (
      PrintEntries(h, DynamicEntries(names, base)) + (Pack(names) + after)))))
  }

  // --------------------------------------------------------------------------
  // Reading inverts printing
  // --------------------------------------------------------------------------

  lemma HeaderRead(data: Bytes, h: Header)
    requires Holds(data, 0, Ident(h)) && |data| >= 64 && h.machine < 0x1_0000
    ensures ParseHeader(data) == Some(h)
  {
    var magic: Bytes := [0x7f, 0x45, 0x4c, 0x46, if h.wide then 2 else 1, if h.little then 1 else 2];
    HoldsParts(data, 0, magic + Zeros(12), Spell(h.machine, 2, h.little));
    HoldsParts(data, 0, magic, Zeros(12));
    TwoBytes(h.machine);
    FieldRead(data, 18, h.machine, 2, h.little);
    assert data[0..6] == magic;
    assert data[4] == data[0..6][4] && data[5] == data[0..6][5];
    assert data[..4] == data[0..6][..4];
  }

  lemma TableRead(data: Bytes, h: Header)
    requires Holds(data, 20, TableFields(h)) && |data| >= 64
    ensures HeaderCount(data, h) == 2 && HeaderAt(data, h, 0) == 64 && HeaderAt(data, h, 1) == 64 + h.Fields().phdrSize
  {
    var f, little := h.Fields(), h.little;
    var e := Spell(2, 2, little) + Zeros(64 - f.phnumAt - 2);
    var d := Spell(f.phdrSize, 2, little) + e;
    var c := Zeros(f.phentsizeAt - f.phoffAt - f.width) + d;
    var b := Spell(64, f.width, little) + c;
    HoldsParts(data, 20, Zeros(f.phoffAt - 20), b);
    HoldsParts(data, f.phoffAt, Spell(64, f.width, little), c);
    HoldsParts(data, f.phoffAt + f.width, Zeros(f.phentsizeAt - f.phoffAt - f.width), d);
    HoldsParts(data, f.phentsizeAt, Spell(f.phdrSize, 2, little), e);
    HoldsParts(data, f.phnumAt, Spell(2, 2, little), Zeros(64 - f.phnumAt - 2));
    hide Spell, Holds, Number;
    TwoBytes(64);
    TwoBytes(f.phdrSize);
    TwoBytes(2);
    SmallNumbers(f.width, 64);
    FieldRead(data, f.phoffAt, 64, f.width, little);
    FieldRead(data, f.phentsizeAt, f.phdrSize, 2, little);
    FieldRead(data, f.phnumAt, 2, 2, little);
  }

  /** Every field of the header fits its width. */
  predicate Fitting(h: Header, p: ProgramHeader) {
    var limit := Power256(h.Fields().width);
    p.kind < Power256(4) && p.segment.offset < limit && p.segment.vaddr < limit && p.segment.filesz < limit
  }

  /** Where a printed program header has its fields. */
  lemma FieldsHold(data: Bytes, h: Header, pos: nat, p: ProgramHeader)
    requires Holds(data, pos, PrintHeader(h, p))
    ensures pos + h.Fields().phdrSize <= |data|
    ensures var f, little, s := h.Fields(), h.little, p.segment;
      && Holds(data, pos, Spell(p.kind, 4, little))
      && Holds(data, pos + f.offsetAt, Spell(s.offset, f.width, little))
      && Holds(data, pos + f.vaddrAt, Spell(s.vaddr, f.width, little))
      && Holds(data, pos + f.fileszAt, Spell(s.filesz, f.width, little))
  {
    var f, little, s := h.Fields(), h.little, p.segment;
    var e := Spell(s.filesz, f.width, little) + Zeros(f.phdrSize - f.fileszAt - f.width);
    var d := Zeros(f.fileszAt - f.vaddrAt - f.width) + e;
    var c := Spell(s.vaddr, f.width, little) + d;
    var b := Spell(s.offset, f.width, little) + c;
    var a := Zeros(f.offsetAt - 4) + b;
    assert PrintHeader(h, p) == Spell(p.kind, 4, little) + a;
    hide Spell;
    HoldsParts(data, pos, Spell(p.kind, 4, little), a);
    HoldsParts(data, pos + 4, Zeros(f.offsetAt - 4), b);
    HoldsParts(data, pos + f.offsetAt, Spell(s.offset, f.width, little), c);
    HoldsParts(data, pos + f.vaddrAt, Spell(s.vaddr, f.width, little), d);
    HoldsParts(data, pos + f.vaddrAt + f.width, Zeros(f.fileszAt - f.vaddrAt - f.width), e);
    HoldsParts(data, pos + f.fileszAt, Spell(s.filesz, f.width, little), Zeros(f.phdrSize - f.fileszAt - f.width));
  }

  lemma ProgramHeaderRead(data: Bytes, h: Header, i: nat, p: ProgramHeader)
    requires |data| >= 64 && Holds(data, HeaderAt(data, h, i), PrintHeader(h, p)) && Fitting(h, p)
    ensures InFile(data, h, i) && ReadHeader(data, h, i) == p
  {
    var f, pos := h.Fields(), HeaderAt(data, h, i);
    FieldsHold(data, h, pos, p);
    hide Spell, Holds, At, HeaderAt, Power256, PrintHeader;
    FieldRead(data, pos, p.kind, 4, h.little);
    FieldRead(data, pos + f.offsetAt, p.segment.offset, f.width, h.little);
    FieldRead(data, pos + f.vaddrAt, p.segment.vaddr, f.width, h.little);
    FieldRead(data, pos + f.fileszAt, p.segment.filesz, f.width, h.little);
  }

  ghost predicate FittingEntries(h: Header, entries: seq<Dyn>) {
    forall e | e in entries :: e.tag < Power256(h.Fields().width) && e.val < Power256(h.Fields().width)
  }

  lemma {:induction false} EntriesRead(data: Bytes, h: Header, section: (nat, nat), entries: seq<Dyn>)
    requires Holds(data, section.0, PrintEntries(h, entries)) && FittingEntries(h, entries) && Fits(data, h, section, |entries|)
    ensures Entries(data, h, section, |entries|) == entries
  {
    hide Holds, PrintEntry, ReadEntry, PrintEntries, Power256, Header.EntrySize, Fits;
    if entries != [] {
      var n := |entries| - 1;
      LastEntryHolds(data, h, section, entries);
      EntriesRead(data, h, section, entries[..n]);
      EntryRead(data, h, section, n, entries[n]);
      EntriesSnoc(data, h, section, n);
      hide Entries;
      assert entries == entries[..n] + [entries[n]];
    }
  }

  lemma {:induction false} LastEntryHolds(data: Bytes, h: Header, section: (nat, nat), entries: seq<Dyn>)
    requires entries != [] && Holds(data, section.0, PrintEntries(h, entries)) && Fits(data, h, section, |entries|)
    ensures var n := |entries| - 1;
      && Fits(data, h, section, n) && Holds(data, section.0, PrintEntries(h, entries[..n]))
      && Holds(data, section.0 + n * h.EntrySize(), PrintEntry(h, entries[n]))
  {
    var n := |entries| - 1;
    hide Holds, PrintEntry, Header.EntrySize, Fits;
    FitsFewer(data, h, section, n);
    HoldsParts(data, section.0, PrintEntries(h, entries[..n]), PrintEntry(h, entries[n]));
  }

  lemma FitsFewer(data: Bytes, h: Header, section: (nat, nat), n: nat)
    requires Fits(data, h, section, n + 1)
    ensures Fits(data, h, section, n)
  {
    hide Header.EntrySize;
    OneMore(n, h.EntrySize());
  }

  lemma OneMore(n: nat, size: nat)
    ensures (n + 1) * size == n * size + size
  {
  }

  lemma EntriesSnoc(data: Bytes, h: Header, section: (nat, nat), n: nat)
    requires Fits(data, h, section, n) && Fits(data, h, section, n + 1)
    ensures Entries(data, h, section, n + 1) == Entries(data, h, section, n) + [ReadEntry(data, h, section, n)]
  {
    hide ReadEntry;
  }

  lemma EntryRead(data: Bytes, h: Header, section: (nat, nat), i: nat, e: Dyn)
    requires Fits(data, h, section, i + 1) && Holds(data, section.0 + i * h.EntrySize(), PrintEntry(h, e))
    requires e.tag < Power256(h.Fields().width) && e.val < Power256(h.Fields().width)
    ensures ReadEntry(data, h, section, i) == e
  {
    var w, pos := h.Fields().width, section.0 + i * h.EntrySize();
    PairHolds(data, h, pos, e);
    hide Spell, Holds, At, PrintEntry, Power256, Header.EntrySize;
    FieldRead(data, pos, e.tag, w, h.little);
    FieldRead(data, pos + w, e.val, w, h.little);
  }

  lemma PairHolds(data: Bytes, h: Header, pos: nat, e: Dyn)
    requires Holds(data, pos, PrintEntry(h, e))
    ensures var w := h.Fields().width;
      Holds(data, pos, Spell(e.tag, w, h.little)) && Holds(data, pos + w, Spell(e.val, w, h.little))
  {
    hide Spell;
    var w := h.Fields().width;
    HoldsParts(data, pos, Spell(e.tag, w, h.little), Spell(e.val, w, h.little));
  }

  /** What the printed dynamic section says. */
  lemma DynamicSays(names: seq<Bytes>, base: nat)
    ensures var live := Live(DynamicEntries(names, base));
      LastOf(live, DT_STRTAB) == base && LastOf(live, DT_STRSZ) == |Pack(names)| && Needed(live) == Indices(names)
  {
    var entries, needed := DynamicEntries(names, base), NeededEntries(Indices(names));
    var n := |names|;
    LiveIs(entries, n + 2);
    var live := entries[..n + 2];
    assert live[..n + 1][..n] == needed && live[n] == Dyn(DT_STRTAB, base) && live[n + 1] == Dyn(DT_STRSZ, |Pack(names)|);
    assert live[..n + 1][n] == live[n];
    hide Live;
    NeededBack(Indices(names));
    assert Needed(live) == Needed(live[..n + 1]) == Needed(needed);
  }

  lemma {:induction false} NeededBack(needed: seq<nat>)
    ensures Needed(NeededEntries(needed)) == needed
  {
    if needed != [] {
      var n := |needed| - 1;
      NeededBack(needed[..n]);
      assert NeededEntries(needed)[..n] == NeededEntries(needed[..n]);
      assert needed == needed[..n] + [needed[n]];
    }
  }

  /** The printed numbers fit: an image below 4 GiB, and a nonzero address of the class. */
  ghost predicate Printable(h: Header, names: seq<Bytes>, base: nat, after: Bytes) {
    && h.machine < 0x1_0000 && 0 < base < Power256(h.Fields().width)
    && |Image(h, names, base, after)| < Power256(4) && forall n | n in names :: Nameable(n)
  }

  function LoadHeader(h: Header, names: seq<Bytes>, base: nat): ProgramHeader {
    ProgramHeader(1, Segment(StringsAt(h, names), base, |Pack(names)|))
  }

  function DynamicHeader(h: Header, names: seq<Bytes>): ProgramHeader {
    ProgramHeader(2, Segment(DynamicAt(h), 0, (|names| + 3) * h.EntrySize()))
  }

  /** Where the parts of an image are. */
  lemma PartsHold(h: Header, names: seq<Bytes>, base: nat, after: Bytes) returns (front: Bytes)
    ensures var data := Image(h, names, base, after);
      && Holds(data, 0, Ident(h)) && Holds(data, 20, TableFields(h))
      && Holds(data, 64, PrintHeader(h, LoadHeader(h, names, base)))
      && Holds(data, 64 + h.Fields().phdrSize, PrintHeader(h, DynamicHeader(h, names)))
      && Holds(data, DynamicAt(h), PrintEntries(h, DynamicEntries(names, base)))
      && |front| == StringsAt(h, names) && data == front + Pack(names) + after
  {
    hide Ident, TableFields, PrintHeader, PrintEntries, DynamicEntries, Pack;
    var data := Image(h, names, base, after);
    var entries := PrintEntries(h, DynamicEntries(names, base));
    EntryCount(names, base);
    var load, dynamic := PrintHeader(h, LoadHeader(h, names, base)), PrintHeader(h, DynamicHeader(h, names));
    var e := entries + (Pack(names) + after);
    var d := dynamic + e;
    var c := load + d;
    assert data == Ident(h) + (TableFields(h) + c);
    Whole(data);
    HoldsParts(data, 0, Ident(h), TableFields(h) + c);
    HoldsParts(data, 20, TableFields(h), c);
    HoldsParts(data, 64, load, d);
    HoldsParts(data, 64 + |load|, dynamic, e);
    HoldsParts(data, DynamicAt(h), entries, Pack(names) + after);
    front := Ident(h) + (TableFields(h) + (load + (dynamic + entries)));
    Regroup(Ident(h), TableFields(h), load, dynamic, entries, Pack(names), after);
  }

  lemma EntryCount(names: seq<Bytes>, base: nat)
    ensures |DynamicEntries(names, base)| == |names| + 3
  {
  }

  lemma Whole(data: Bytes)
    ensures Holds(data, 0, data)
  {
  }

  lemma Regroup(a: Bytes, b: Bytes, c: Bytes, d: Bytes, e: Bytes, f: Bytes, g: Bytes)
    ensures a + (b + (c + (d + (e + (f + g))))) == (a + (b + (c + (d + e)))) + f + g
  {
    assert d + (e + (f + g)) == (d + e) + (f + g);
    assert c + ((d + e) + (f + g)) == (c + (d + e)) + (f + g);
    assert b + ((c + (d + e)) + (f + g)) == (b + (c + (d + e))) + (f + g);
    assert a + ((b + (c + (d + e))) + (f + g)) == (a + (b + (c + (d + e)))) + (f + g);
  }

  /** The program headers of an image: one loaded segment, and the dynamic section. */
  lemma HeadersRead(h: Header, names: seq<Bytes>, base: nat, after: Bytes)
    requires Printable(h, names, base, after)
    ensures var data := Image(h, names, base, after);
      && ParseHeader(data) == Some(h)
      && Headers(data, h, HeaderCount(data, h)) == [LoadHeader(h, names, base), DynamicHeader(h, names)]
  {
    var data, load, dynamic := Image(h, names, base, after), LoadHeader(h, names, base), DynamicHeader(h, names);
    var front := PartsHold(h, names, base, after);
    InThere(data, 64, PrintHeader(h, load));
    InThere(data, DynamicAt(h), PrintEntries(h, DynamicEntries(names, base)));
    EntryCount(names, base);
    HeaderRead(data, h);
    TableRead(data, h);
    HeadersFit(h, names, base, after);
    hide Image, Holds, PrintHeader, PrintEntries, HeaderAt, ReadHeader, InFile, Fitting, HeaderCount, ParseHeader;
    ProgramHeaderRead(data, h, 0, load);
    ProgramHeaderRead(data, h, 1, dynamic);
    TwoHeaders(data, h, load, dynamic);
  }

  lemma TwoHeaders(data: Bytes, h: Header, first: ProgramHeader, second: ProgramHeader)
    requires |data| >= 64 && InFile(data, h, 0) && InFile(data, h, 1) && ReadHeader(data, h, 0) == first && ReadHeader(data, h, 1) == second
    ensures Headers(data, h, 2) == [first, second]
  {
    assert Headers(data, h, 0) == [] && Headers(data, h, 1) == [first];
  }

  lemma HeadersFit(h: Header, names: seq<Bytes>, base: nat, after: Bytes)
    requires Printable(h, names, base, after)
    ensures Fitting(h, LoadHeader(h, names, base)) && Fitting(h, DynamicHeader(h, names))
  {
    var front := PartsHold(h, names, base, after);
    SmallNumbers(h.Fields().width, StringsAt(h, names));
    SmallNumbers(h.Fields().width, |Pack(names)|);
    SmallNumbers(h.Fields().width, DynamicAt(h));
    SmallNumbers(h.Fields().width, (|names| + 3) * h.EntrySize());
    TwoBytes(PT_LOAD);
    TwoBytes(PT_DYNAMIC);
    SmallNumbers(h.Fields().width, 0);
    hide Image, Power256, Holds, Pack;
  }

  lemma EntriesFit(h: Header, names: seq<Bytes>, base: nat, after: Bytes)
    requires Printable(h, names, base, after)
    ensures FittingEntries(h, DynamicEntries(names, base))
  {
    var front := PartsHold(h, names, base, after);
    var w := h.Fields().width;
    SmallNumbers(w, |Pack(names)|);
    TwoBytes(DT_STRSZ);
    SmallNumbers(w, DT_STRSZ);
    TwoBytes(0);
    SmallNumbers(w, 0);
    SmallNumbers(w, DT_NEEDED);
    SmallNumbers(w, DT_STRTAB);
    hide Image, Power256, Holds, Pack, Indices;
    forall i | 0 <= i < |names| ensures Indices(names)[i] < Power256(w) {
      IndexInside(names, i);
      SmallNumbers(w, Indices(names)[i]);
    }
    var needed, last := NeededEntries(Indices(names)), [Dyn(DT_STRTAB, base), Dyn(DT_STRSZ, |Pack(names)|), Dyn(DT_NULL, 0)];
    assert FittingEntries(h, needed) && FittingEntries(h, last);
    assert forall e | e in needed + last :: e in needed || e in last;
  }

  lemma {:induction false} IndexInside(names: seq<Bytes>, i: nat)
    requires i < |names|
    ensures Indices(names)[i] <= |Pack(names)|
  {
    var n := |names| - 1;
    if i < n {
      IndexInside(names[..n], i);
    }
  }

  lemma TwoSegments(h: Header, names: seq<Bytes>, base: nat)
    ensures var headers := [LoadHeader(h, names, base), DynamicHeader(h, names)];
      && Loads(headers) == [LoadHeader(h, names, base).segment]
      && Dynamic(headers) == (DynamicAt(h), (|names| + 3) * h.EntrySize())
      && (names != [] ==> OffsetOf(base, Loads(headers)) == Some(StringsAt(h, names)) && |Pack(names)| > 0)
  {
    var headers := [LoadHeader(h, names, base), DynamicHeader(h, names)];
    assert headers[..1] == [headers[0]] && headers[..1][..0] == [];
    assert Loads(headers[..1]) == [headers[0].segment];
  }

  lemma SectionRead(h: Header, names: seq<Bytes>, base: nat, after: Bytes)
    requires Printable(h, names, base, after)
    ensures var data, section := Image(h, names, base, after), (DynamicAt(h), (|names| + 3) * h.EntrySize());
      && section.1 / h.EntrySize() == |names| + 3 && Fits(data, h, section, |names| + 3)
      && Entries(data, h, section, |names| + 3) == DynamicEntries(names, base)
  {
    var data, section := Image(h, names, base, after), (DynamicAt(h), (|names| + 3) * h.EntrySize());
    var front := PartsHold(h, names, base, after);
    EntryCount(names, base);
    InThere(data, DynamicAt(h), PrintEntries(h, DynamicEntries(names, base)));
    EntriesFit(h, names, base, after);
    hide Image, Holds, PrintEntries, DynamicEntries, FittingEntries;
    EntriesRead(data, h, section, DynamicEntries(names, base));
    WholeEntries(|names| + 3, h.EntrySize());
  }

  lemma WholeEntries(n: nat, size: nat)
    requires size > 0
    ensures n * size / size == n
  {
    if n > 0 {
      EntryExists(n - 1, n * size, size);
    }
    EntryExists(n, n * size, size);
    assert (n + 1) * size == n * size + size;
  }

  /** Whatever names are printed into an image of either class and byte order are the libraries read from it, in order. */
  lemma ImageReadBack(h: Header, names: seq<Bytes>, base: nat, after: Bytes)
    requires Printable(h, names, base, after)
    ensures Libraries(Image(h, names, base, after)) == names
  {
    hide Image, Holds, Headers, ParseHeader, Live, Entries, Pack, Indices, DynamicEntries, Names, Loads, Dynamic, OffsetOf;
    hide Needed, LastOf, HeaderCount, Printable, Fits;
    var data := Image(h, names, base, after);
    var headers := [LoadHeader(h, names, base), DynamicHeader(h, names)];
    var section := (DynamicAt(h), (|names| + 3) * h.EntrySize());
    var front := PartsHold(h, names, base, after);
    HeadersRead(h, names, base, after);
    TwoSegments(h, names, base);
    SectionRead(h, names, base, after);
    DynamicSays(names, base);
    AllNameable(h, names, base, after);
    if names != [] {
      PackReadBack(front, names, after, |Pack(names)|);
    }
    NoneNeeded(data);
  }

  lemma AllNameable(h: Header, names: seq<Bytes>, base: nat, after: Bytes)
    requires Printable(h, names, base, after)
    ensures base > 0 && forall n | n in names :: Nameable(n)
  {
    hide Image;
  }
}
