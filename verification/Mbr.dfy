/**
 Switching the boot partition of a master boot record between the two halves of a
 region. Numbers are as wide as in the program: addresses and sizes in bytes have 64
 bits and wrap around, sector numbers have 32 bits and are cut.
 */
module Mbr {
  import opened Wrappers
  import opened Units

  datatype Chs = Chs(head: nat, sector: nat, cylinder: nat)

  datatype Entry = Entry(indicator: nat, chsStart: Chs, kind: nat, chsEnd: Chs, start: nat, size: nat)

  datatype Record = Record(table: seq<Entry>, magicLow: nat, magicHigh: nat)

  /** A partition in bytes. */
  datatype Partition = Partition(start: nat, size: nat)

  /** What the kernel says of the device; without a geometry, 255 heads and 63 sectors are used. */
  datatype Disk = Disk(sectorSize: nat, sectors: nat, geometry: Option<(nat, nat)>)

  datatype Region = Region(start: nat, size: nat)

  predicate ValidDisk(d: Disk) {
    && 512 <= d.sectorSize <= 65536 && d.sectors < 0x1_0000_0000
    && (d.geometry.Some? ==> d.geometry.value.0 < 256 && d.geometry.value.1 < 256)
  }

  predicate ValidRecord(m: Record) {
    |m.table| == 4 && forall i :: 0 <= i < 4 ==> m.table[i].start < 0x1_0000_0000 && m.table[i].size < 0x1_0000_0000
  }

  predicate Fits64(g: Region) { g.start < 0x1_0000_0000_0000_0000 && g.size < 0x1_0000_0000_0000_0000 }

  /** The end of the region does not wrap around. */
  predicate NoWrap(g: Region) { g.start + g.size < 0x1_0000_0000_0000_0000 }

  function Add64(a: nat, b: nat): nat
    requires a < 0x1_0000_0000_0000_0000 && b < 0x1_0000_0000_0000_0000
  {
    if a + b < 0x1_0000_0000_0000_0000 then a + b else a + b - 0x1_0000_0000_0000_0000
  }

  function Cut32(x: nat): (r: nat)
    ensures r < 0x1_0000_0000
    ensures x < 0x1_0000_0000 ==> r == x
    ensures 0x1_0000_0000 <= x < 0x2_0000_0000 ==> r == x - 0x1_0000_0000
  {
    Whole(x, 0x1_0000_0000);
    Rem(x, 0x1_0000_0000)
  }

  // ---- multiples of the sector size ---------------------------------------------------------

  /** Both halves of a region that is a multiple of two sectors are multiples of one. */
  lemma Halves(g: Region, d: nat)
    requires d > 0 && Rem(g.start, d) == 0 && Rem(g.size, 2 * d) == 0
    ensures g.size == 2 * (g.size / 2) && Rem(g.size / 2, d) == 0 && Rem(g.start + g.size / 2, d) == 0
    ensures Quot(g.start + g.size / 2, d) == Quot(g.start, d) + Quot(g.size / 2, d)
    ensures g.size > 0 ==> Quot(g.size / 2, d) >= 1
  {
    Exact(g.size, 2 * d);
    var q := Quot(g.size, 2 * d);
    TimesTwice(q, d);
    OfTimes(q, d, 0);
    SumOfWhole(g.start, g.size / 2, d);
  }

  // ---- cylinder, head and sector ---------------------------------------------------------------

  /** The bitwise or of two numbers of two bits. */
  function Or2(a: nat, b: nat): (r: nat)
    requires a < 4 && b < 4
    ensures a <= r < 4 && b <= r
  {
    (if a % 2 == 1 || b % 2 == 1 then 1 else 0) + (if a / 2 == 1 || b / 2 == 1 then 2 else 0)
  }

  /** With an empty geometry nothing is stored and the old bytes remain. */
  function ChsOf(before: Chs, lba: nat, heads: nat, sectors: nat): Chs
    requires heads < 256 && sectors < 256
  {
    if heads == 0 || sectors == 0 then before
    else
      var s := Rem(lba, sectors) + 1;
      var track := Quot(lba, sectors);
      var cylinder := Quot(track, heads);
      Chs(Rem(track, heads), s % 64 + 64 * Or2(s / 64 % 4, cylinder / 256 % 4), cylinder % 256)
  }

  method GetChs(chs: Chs, lba: nat, heads: nat, sectors: nat) returns (r: Chs)
    requires heads < 256 && sectors < 256
    ensures r == ChsOf(chs, lba, heads, sectors)
  {
    r := chs;
    if heads == 0 || sectors == 0 {
      return;
    }
    var left := lba;
    r := r.(sector := Rem(left, sectors) + 1);
    left := Quot(left, sectors);
    r := r.(head := Rem(left, heads));
    left := Quot(left, heads);
    r := r.(cylinder := left % 256);
    r := r.(sector := r.sector % 64 + 64 * Or2(r.sector / 64 % 4, left / 256 % 4));
  }

  /** The sector number that the bytes stand for: six bits of sector, ten bits of cylinder. */
  function LbaOf(chs: Chs, heads: nat, sectors: nat): int {
    Times(Times(chs.cylinder + 256 * (chs.sector / 64), heads) + chs.head, sectors) + (chs.sector % 64 - 1)
  }

  /** A wrong cylinder moves the position by more than any wrong bits of the sector. */
  lemma CylinderOff(c: nat, c': nat, head: nat, heads: nat, sectors: nat)
    requires heads > 0 && sectors > 0
    ensures var d := Times(Times(c', heads) + head, sectors) as int - Times(Times(c, heads) + head, sectors) as int;
            && (c' == c ==> d == 0)
            && (c' > c ==> d >= sectors + (c' - c - 1))
            && (c' < c ==> d < 0)
  {
    if c' > c {
      TimesOrder(c, c', heads);
      TimesOrder(Times(c, heads) + head, Times(c', heads) + head, sectors);
    } else if c' < c {
      TimesOrder(c', c, heads);
      TimesOrder(Times(c', heads) + head, Times(c, heads) + head, sectors);
    }
  }

  /** Two bits taken from elsewhere never yield the right cylinder unless they were right already. */
  lemma CylinderBits(c: nat, k: nat, c': nat)
    requires k < 4 && c' == c % 256 + 256 * Or2(k, c / 256 % 4)
    ensures c >= 1024 ==> c' < c
    ensures c < 1024 ==> c' == c || c' >= c + 256
    ensures c < 1024 && k == 0 ==> c' == c
  {
    assert Or2(k, c / 256 % 4) < 4;
    assert c == c % 256 + 256 * (c / 256);
  }

  lemma SectorByte(low: nat, high: nat)
    requires low < 64 && high < 4
    ensures (low + 64 * high) / 64 == high && (low + 64 * high) % 64 == low
  {
  }

  /** Which numbers the stored bytes yield. */
  lemma StoredBits(lba: nat, heads: nat, sectors: nat, chs: Chs)
    requires 0 < heads < 256 && 0 < sectors < 256 && chs == ChsOf(chs, lba, heads, sectors)
    ensures var c, s := Quot(Quot(lba, sectors), heads), Rem(lba, sectors) + 1;
            chs.sector / 64 == Or2(s / 64 % 4, c / 256 % 4) && chs.sector % 64 == s % 64 && chs.cylinder == c % 256
  {
    var c, s := Quot(Quot(lba, sectors), heads), Rem(lba, sectors) + 1;
    SectorByte(s % 64, Or2(s / 64 % 4, c / 256 % 4));
  }

  lemma Position(lba: nat, heads: nat, sectors: nat)
    requires 0 < heads && 0 < sectors
    ensures lba == Times(Times(Quot(Quot(lba, sectors), heads), heads) + Rem(Quot(lba, sectors), heads), sectors)
                   + Rem(lba, sectors)
    ensures Rem(lba, sectors) < sectors
  {
    Whole(lba, sectors);
    Whole(Quot(lba, sectors), heads);
  }

  /** How far the stored position is off: by whole cylinders, and by the sector bits that do not fit. */
  lemma LbaOff(lba: nat, heads: nat, sectors: nat, chs: Chs) returns (c: nat, s: nat, c': nat, off: int)
    requires 0 < heads < 256 && 0 < sectors < 256 && chs == ChsOf(chs, lba, heads, sectors)
    ensures c == Quot(Quot(lba, sectors), heads) && s == Rem(lba, sectors) + 1 && 0 < s <= sectors
    ensures c' == c % 256 + 256 * Or2(s / 64 % 4, c / 256 % 4)
    ensures LbaOf(chs, heads, sectors) - lba == off - 64 * (s / 64)
    ensures (c' == c ==> off == 0) && (c' > c ==> off >= sectors + (c' - c - 1)) && (c' < c ==> off < 0)
  {
    Position(lba, heads, sectors);
    StoredBits(lba, heads, sectors, chs);
    c, s, c' := Quot(Quot(lba, sectors), heads), Rem(lba, sectors) + 1, chs.cylinder + 256 * (chs.sector / 64);
    var stored := Times(Times(c', heads) + chs.head, sectors);
    var exact := Times(Times(c, heads) + chs.head, sectors);
    off := stored as int - exact as int;
    CylinderOff(c, c', chs.head, heads, sectors);
    SixBits(s, stored, exact);
  }

  lemma SixBits(s: nat, stored: nat, exact: nat)
    requires s > 0
    ensures (stored + (s % 64 - 1)) - (exact + (s - 1)) == (stored - exact) - 64 * (s / 64)
  {
  }

  lemma Verdict(c: nat, s: nat, c': nat, off: int, sectors: nat)
    requires 0 < s <= sectors < 256 && c' == c % 256 + 256 * Or2(s / 64 % 4, c / 256 % 4)
    requires (c' == c ==> off == 0) && (c' > c ==> off >= sectors + (c' - c - 1)) && (c' < c ==> off < 0)
    ensures off == 64 * (s / 64) <==> c < 1024 && s <= 63
  {
    CylinderBits(c, s / 64 % 4, c');
    assert s / 64 < 4 && 64 * (s / 64) <= s;
    assert s <= 63 <==> s / 64 == 0;
  }

  lemma BytesFit(before: Chs, lba: nat, heads: nat, sectors: nat)
    requires 0 < heads < 256 && 0 < sectors < 256
    ensures var chs := ChsOf(before, lba, heads, sectors); chs.head < 256 && chs.sector < 256 && chs.cylinder < 256
    ensures 0 < Rem(lba, sectors) + 1 <= sectors
  {
    Whole(lba, sectors);
    Whole(Quot(lba, sectors), heads);
  }

  /**
   The bytes stand for the sector they were made from exactly if the cylinder fits ten
   bits and the position in the track fits six; with at most 63 sectors per track it does.
   */
  lemma ChsStandsFor(before: Chs, lba: nat, heads: nat, sectors: nat)
    requires 0 < heads < 256 && 0 < sectors < 256
    ensures var chs := ChsOf(before, lba, heads, sectors);
            && chs.head < 256 && chs.sector < 256 && chs.cylinder < 256
            && (LbaOf(chs, heads, sectors) == lba <==> Quot(Quot(lba, sectors), heads) < 1024 && Rem(lba, sectors) < 63)
            && (sectors <= 63 ==> Rem(lba, sectors) < 63)
  {
    BytesFit(before, lba, heads, sectors);
    var c, s, c', off := LbaOff(lba, heads, sectors, ChsOf(before, lba, heads, sectors));
    Verdict(c, s, c', off, sectors);
  }

  // ---- checking the region ------------------------------------------------------------------

  predicate ValidRegion(d: Disk, g: Region)
    requires ValidDisk(d) && Fits64(g)
  {
    && g.start >= 512 && g.size != 0
    && Rem(g.start, d.sectorSize) == 0 && Rem(g.size, 2 * d.sectorSize) == 0
    && Add64(g.start, g.size) < Times(d.sectors, d.sectorSize)
  }

  /** The conditions in plain arithmetic; the end is computed in 64 bits. */
  lemma ValidRegionIff(d: Disk, g: Region)
    requires ValidDisk(d) && Fits64(g)
    ensures ValidRegion(d, g) <==>
            && g.start >= 512 && g.size > 0 && g.start % d.sectorSize == 0 && g.size % (2 * d.sectorSize) == 0
            && (g.start + g.size) % 0x1_0000_0000_0000_0000 < d.sectors * d.sectorSize
  {
    IsRemainder(g.start, d.sectorSize);
    IsRemainder(g.size, 2 * d.sectorSize);
    IsProduct(d.sectors, d.sectorSize);
  }

  lemma IsRemainder(x: nat, d: nat)
    requires d > 0
    ensures Rem(x, d) == x % d
  {
    AreProductAndQuotient(x, d);
  }

  /** The first and last byte of a partition that is not empty. */
  function FirstByte(e: Entry, sectorSize: nat): nat { Times(e.start, sectorSize) }
  function LastByte(e: Entry, sectorSize: nat): int { Times(e.size, sectorSize) + Times(e.start, sectorSize) - 1 }

  /** No start lies inside the other one, with the end of the region as the program computes it. */
  predicate Clear(g: Region, e: Entry, sectorSize: nat)
    requires g.size > 0 && Fits64(g)
  {
    && !(FirstByte(e, sectorSize) <= g.start <= LastByte(e, sectorSize))
    && !(g.start <= FirstByte(e, sectorSize) <= Add64(g.start, g.size - 1))
  }

  predicate RegionFree(g: Region, m: Record, sectorSize: nat)
    requires ValidRecord(m) && g.size > 0 && Fits64(g)
  {
    forall i :: 1 <= i < 4 && m.table[i].size != 0 ==> Clear(g, m.table[i], sectorSize)
  }

  predicate Disjoint(start: nat, size: nat, start': nat, size': nat) {
    start + size <= start' || start' + size' <= start
  }

  /** Without wrap-around, being clear is being disjoint. */
  lemma ClearIsDisjoint(g: Region, e: Entry, sectorSize: nat)
    requires g.size > 0 && Fits64(g) && NoWrap(g) && e.size > 0 && sectorSize > 0
    ensures Clear(g, e, sectorSize) <==>
              Disjoint(g.start, g.size, Times(e.start, sectorSize), Times(e.size, sectorSize))
  {
    assert Times(e.size, sectorSize) >= 1;
  }

  // ---- choosing and setting the boot partition ---------------------------------------------------

  function Half(g: Region): nat { g.size / 2 }

  function Inactive(d: Disk, m: Record, g: Region): Option<Partition>
    requires ValidDisk(d) && ValidRecord(m) && Fits64(g)
  {
    if !ValidRegion(d, g) then None
    else if m.magicLow != 0x55 || m.magicHigh != 0xAA then None
    else if !RegionFree(g, m, d.sectorSize) then None
    else if m.table[0].start == 0 then None
    else if Quot(g.start, d.sectorSize) == m.table[0].start then Some(Partition(Add64(g.start, Half(g)), Half(g)))
    else if Quot(Add64(g.start, Half(g)), d.sectorSize) == m.table[0].start then Some(Partition(g.start, Half(g)))
    else None
  }

  function Geometry(d: Disk): (r: (nat, nat))
    requires ValidDisk(d)
    ensures r.0 < 256 && r.1 < 256
  {
    if d.geometry.Some? then d.geometry.value else (255, 63)
  }

  /** Without a reported geometry, 255 heads and 63 sectors are assumed. */
  lemma DefaultGeometry(d: Disk)
    requires ValidDisk(d)
    ensures d.geometry.None? ==> Geometry(d) == (255, 63)
    ensures d.geometry.Some? ==> Geometry(d) == d.geometry.value
  {
  }

  /** The boot entry for a partition: sector numbers cut to 32 bits, the rest of the entry as before. */
  function RawEntry(d: Disk, e: Entry, p: Partition): Option<Entry>
    requires ValidDisk(d)
  {
    if Rem(p.start, d.sectorSize) != 0 || Rem(p.size, d.sectorSize) != 0 then None
    else
      var start := Cut32(Quot(p.start, d.sectorSize));
      var size := Cut32(Quot(p.size, d.sectorSize));
      var (heads, sectors) := Geometry(d);
      Some(Entry(e.indicator, ChsOf(e.chsStart, start, heads, sectors), e.kind,
                 ChsOf(e.chsEnd, Cut32(start + size + 0xFFFF_FFFF), heads, sectors), start, size))
  }

  function WithBoot(d: Disk, m: Record, p: Partition): Option<Record>
    requires ValidDisk(d) && ValidRecord(m)
  {
    if m.magicLow != 0x55 || m.magicHigh != 0xAA then None
    else match RawEntry(d, m.table[0], p)
      case None => None
      case Some(e) => Some(m.(table := m.table[0 := e]))
  }

  /** One update: choose the inactive half, then make it the boot partition. */
  function Switch(d: Disk, m: Record, g: Region): (r: Option<Record>)
    requires ValidDisk(d) && ValidRecord(m) && Fits64(g)
    ensures r.Some? ==> ValidRecord(r.value)
  {
    match Inactive(d, m, g)
    case None => None
    case Some(p) => WithBoot(d, m, p)
  }

  function Switches(d: Disk, m: Record, g: Region, n: nat): (r: Option<Record>)
    requires ValidDisk(d) && ValidRecord(m) && Fits64(g)
    ensures r.Some? ==> ValidRecord(r.value)
    decreases n
  {
    if n == 0 then Some(m)
    else match Switch(d, m, g)
      case None => None
      case Some(m') => Switches(d, m', g, n - 1)
  }

  // ---- results --------------------------------------------------------------------------------

  /** The sectors at which the two halves start. */
  function Lower(d: Disk, g: Region): nat requires ValidDisk(d) { Quot(g.start, d.sectorSize) }
  function Upper(d: Disk, g: Region): nat requires ValidDisk(d) { Quot(g.start + Half(g), d.sectorSize) }

  /** A record and a region between whose halves the boot partition can be switched. */
  predicate Ready(d: Disk, m: Record, g: Region)
    requires ValidDisk(d) && ValidRecord(m) && Fits64(g)
  {
    && m.magicLow == 0x55 && m.magicHigh == 0xAA
    && ValidRegion(d, g) && NoWrap(g) && RegionFree(g, m, d.sectorSize)
    && (m.table[0].start == Lower(d, g) || m.table[0].start == Upper(d, g))
  }

  lemma LowerUpper(d: Disk, g: Region)
    requires ValidDisk(d) && Fits64(g) && ValidRegion(d, g) && NoWrap(g)
    ensures 0 < Lower(d, g) < Upper(d, g) < d.sectors
    ensures Upper(d, g) == Lower(d, g) + Quot(Half(g), d.sectorSize)
    ensures Times(Lower(d, g), d.sectorSize) == g.start && Times(Upper(d, g), d.sectorSize) == g.start + Half(g)
    ensures 0 < Quot(Half(g), d.sectorSize) && Upper(d, g) + Quot(Half(g), d.sectorSize) < d.sectors
    ensures g.size == 2 * Half(g) && Times(Quot(Half(g), d.sectorSize), d.sectorSize) == Half(g)
    ensures Rem(g.start, d.sectorSize) == 0 && Rem(Half(g), d.sectorSize) == 0
              && Rem(g.start + Half(g), d.sectorSize) == 0
    ensures Add64(g.start, Half(g)) == g.start + Half(g)
  {
    var ss := d.sectorSize;
    Halves(g, ss);
    Exact(g.start, ss);
    Exact(g.start + Half(g), ss);
    Exact(Half(g), ss);
    var h := Quot(Half(g), ss);
    TimesAdd(Upper(d, g), h, ss);
    TimesOrder(Upper(d, g) + h, d.sectors, ss);
  }

  /**
   On success without wrap-around the chosen half is aligned, inside the region and the
   device, disjoint from the half that is booted and from every other partition.
   */
  lemma InactiveIsSafe(d: Disk, m: Record, g: Region)
    requires ValidDisk(d) && ValidRecord(m) && Fits64(g) && NoWrap(g)
    ensures Inactive(d, m, g).Some? <==> Ready(d, m, g)
    ensures Inactive(d, m, g).Some? ==>
              var p := Inactive(d, m, g).value;
              var boot := Times(m.table[0].start, d.sectorSize);
              && p.size == Half(g) && Rem(p.start, d.sectorSize) == 0 && Rem(p.size, d.sectorSize) == 0
              && g.start <= p.start && p.start + p.size <= g.start + g.size < Times(d.sectors, d.sectorSize)
              && (boot == g.start || boot == g.start + Half(g)) && Disjoint(p.start, p.size, boot, Half(g))
              && forall i :: 1 <= i < 4 && m.table[i].size != 0 ==>
                   Disjoint(p.start, p.size, Times(m.table[i].start, d.sectorSize), Times(m.table[i].size, d.sectorSize))
  {
    if ValidRegion(d, g) {
      LowerUpper(d, g);
      if Inactive(d, m, g).Some? {
        forall i | 1 <= i < 4 && m.table[i].size != 0
          ensures Disjoint(g.start, g.size, Times(m.table[i].start, d.sectorSize), Times(m.table[i].size, d.sectorSize))
        {
          ClearIsDisjoint(g, m.table[i], d.sectorSize);
        }
      }
    }
  }

  /** The boot partition as recorded is spared too, exactly unless it starts low and is longer than a half. */
  lemma BootPartitionIsSpared(d: Disk, m: Record, g: Region)
    requires ValidDisk(d) && ValidRecord(m) && Fits64(g) && NoWrap(g) && Inactive(d, m, g).Some?
    ensures var p := Inactive(d, m, g).value;
            var boot, length := Times(m.table[0].start, d.sectorSize), Times(m.table[0].size, d.sectorSize);
            Disjoint(p.start, p.size, boot, length) <==> m.table[0].start == Upper(d, g) || length <= Half(g)
  {
    InactiveIsSafe(d, m, g);
    LowerUpper(d, g);
  }

  /** The check of the end of the region misses a wrap-around; then the chosen half is never inside the device. */
  lemma InsideIffNoWrap(d: Disk, m: Record, g: Region)
    requires ValidDisk(d) && ValidRecord(m) && Fits64(g) && Inactive(d, m, g).Some?
    ensures Inactive(d, m, g).value.start + Inactive(d, m, g).value.size <= Times(d.sectors, d.sectorSize) <==>
              NoWrap(g)
  {
    if NoWrap(g) {
      InactiveIsSafe(d, m, g);
    } else {
      TimesAtMost(d.sectors, d.sectorSize);
      Whole(g.start, d.sectorSize);
      Whole(Add64(g.start, Half(g)), d.sectorSize);
      TimesAtMost(m.table[0].start, d.sectorSize);
    }
  }

  /** There are such regions that are accepted; their sector numbers are cut. */
  lemma WrapIsAccepted() returns (d: Disk, m: Record, g: Region)
    ensures ValidDisk(d) && ValidRecord(m) && Fits64(g) && !NoWrap(g)
    ensures Inactive(d, m, g).Some? && Switch(d, m, g).Some?
    ensures Times(Switch(d, m, g).value.table[0].start, d.sectorSize) != Inactive(d, m, g).value.start
  {
    var ss: nat :| ss == 512;
    var boot: nat :| boot == 2048;
    var before: nat :| before == 1;
    d := Disk(ss, 8192, None);
    var none := Chs(0, 0, 0);
    var e := Entry(0, none, 0, none, 0, 0);
    m := Record([e.(start := boot), e, e, e], 0x55, 0xAA);
    var start := 0x1_0000_0000_0000_0000 - 512 * before;
    var half := 512 * (boot + before);
    g := Region(start, 2 * half);
    AreProductAndQuotient(start, ss);
    AreProductAndQuotient(2 * half, 2 * ss);
    AreProductAndQuotient(half, ss);
    AreProductAndQuotient(d.sectors, ss);
    AreProductAndQuotient(512 * boot, ss);
    assert Half(g) == half && Add64(start, half) == 512 * boot;
    assert Rem(start, ss) == 0 && Rem(2 * half, 2 * ss) == 0 && Rem(half, ss) == 0;
    assert Add64(g.start, g.size) == 512 * (2 * boot + before);
    assert ValidRegion(d, g) && RegionFree(g, m, ss);
    assert Inactive(d, m, g) == Some(Partition(start, half));
    IsProduct(Switch(d, m, g).value.table[0].start, ss);
  }

  lemma RegionFreeAgain(g: Region, m: Record, m': Record, sectorSize: nat)
    requires ValidRecord(m) && ValidRecord(m') && g.size > 0 && Fits64(g) && m'.table[1..] == m.table[1..]
    requires RegionFree(g, m, sectorSize)
    ensures RegionFree(g, m', sectorSize)
  {
    forall i | 1 <= i < 4 ensures m'.table[i] == m.table[i] {
      assert m'.table[1..][i - 1] == m.table[1..][i - 1];
    }
  }

  /** Storing an aligned partition of the device cuts nothing and touches only the boot entry. */
  lemma BootStored(d: Disk, m: Record, p: Partition)
    requires ValidDisk(d) && ValidRecord(m) && m.magicLow == 0x55 && m.magicHigh == 0xAA
    requires Rem(p.start, d.sectorSize) == 0 && Rem(p.size, d.sectorSize) == 0
    requires Quot(p.start, d.sectorSize) < 0x1_0000_0000 && Quot(p.size, d.sectorSize) < 0x1_0000_0000
    ensures var r := WithBoot(d, m, p);
            && r.Some? && ValidRecord(r.value) && r.value.magicLow == 0x55 && r.value.magicHigh == 0xAA
            && r.value.table[0].start == Quot(p.start, d.sectorSize)
                && r.value.table[0].size == Quot(p.size, d.sectorSize)
            && r.value.table[1..] == m.table[1..]
            && r.value.table[0].indicator == m.table[0].indicator && r.value.table[0].kind == m.table[0].kind
  {
  }

  /**
   One switch between ready halves: it succeeds, moves the boot entry to the other half
   without cutting its sector numbers, touches no other entry, and stays ready.
   */
  lemma SwitchMovesBoot(d: Disk, m: Record, g: Region)
    requires ValidDisk(d) && ValidRecord(m) && Fits64(g) && Ready(d, m, g)
    ensures var r := Switch(d, m, g);
            && r.Some? && Ready(d, r.value, g)
            && r.value.table[0].start == (if m.table[0].start == Lower(d, g) then Upper(d, g) else Lower(d, g))
            && r.value.table[0].size == Quot(Half(g), d.sectorSize)
            && r.value.table[1..] == m.table[1..]
            && r.value.table[0].indicator == m.table[0].indicator && r.value.table[0].kind == m.table[0].kind
  {
    LowerUpper(d, g);
    InactiveIsSafe(d, m, g);
    var p := Inactive(d, m, g).value;
    assert p.start == if m.table[0].start == Lower(d, g) then g.start + Half(g) else g.start;
    BootStored(d, m, p);
    RegionFreeAgain(g, m, WithBoot(d, m, p).value, d.sectorSize);
  }

  /** The bytes stand for the given sector exactly if its cylinder fits ten bits. */
  predicate Faithful(chs: Chs, lba: nat, geometry: (nat, nat))
    requires geometry.0 > 0 && geometry.1 > 0
  {
    LbaOf(chs, geometry.0, geometry.1) == lba <==> Quot(Quot(lba, geometry.1), geometry.0) < 1024
  }

  lemma ChsIsFaithful(before: Chs, lba: nat, geometry: (nat, nat))
    requires 0 < geometry.0 < 256 && 0 < geometry.1 <= 63
    ensures Faithful(ChsOf(before, lba, geometry.0, geometry.1), lba, geometry)
  {
    ChsStandsFor(before, lba, geometry.0, geometry.1);
  }

  lemma EntryOf(d: Disk, m: Record, p: Partition)
    requires ValidDisk(d) && ValidRecord(m) && WithBoot(d, m, p).Some?
    ensures var e := WithBoot(d, m, p).value.table[0];
            && e.chsStart == ChsOf(m.table[0].chsStart, e.start, Geometry(d).0, Geometry(d).1)
            && e.chsEnd == ChsOf(m.table[0].chsEnd, Cut32(e.start + e.size + 0xFFFF_FFFF), Geometry(d).0, Geometry(d).1)
  {
    var (heads, sectors) := Geometry(d);
  }

  /** The stored positions of the first and last sector stand for them, if the geometry allows. */
  lemma SwitchStoresPositions(d: Disk, m: Record, g: Region)
    requires ValidDisk(d) && ValidRecord(m) && Fits64(g) && Ready(d, m, g)
    requires Geometry(d).0 > 0 && 0 < Geometry(d).1 <= 63
    ensures Switch(d, m, g).Some?
    ensures var e := Switch(d, m, g).value.table[0];
            var last := e.start + e.size - 1;
            && last >= e.start
            && Faithful(e.chsStart, e.start, Geometry(d)) && Faithful(e.chsEnd, last, Geometry(d))
  {
    SwitchMovesBoot(d, m, g);
    var e := Switch(d, m, g).value.table[0];
    EntryOf(d, m, Inactive(d, m, g).value);
    SwitchFits(d, m, g);
    CutLast(e.start, e.size);
    ChsIsFaithful(m.table[0].chsStart, e.start, Geometry(d));
    ChsIsFaithful(m.table[0].chsEnd, e.start + e.size - 1, Geometry(d));
  }

  lemma SwitchFits(d: Disk, m: Record, g: Region)
    requires ValidDisk(d) && ValidRecord(m) && Fits64(g) && Ready(d, m, g)
    ensures Switch(d, m, g).Some?
    ensures var e := Switch(d, m, g).value.table[0]; e.size > 0 && e.start + e.size < d.sectors
  {
    SwitchMovesBoot(d, m, g);
    LowerUpper(d, g);
  }

  lemma CutLast(start: nat, size: nat)
    requires size > 0 && start + size <= 0x1_0000_0000
    ensures Cut32(start + size + 0xFFFF_FFFF) == start + size - 1
  {
  }

  function OtherStart(d: Disk, m: Record, g: Region): nat
    requires ValidDisk(d) && ValidRecord(m)
  {
    if m.table[0].start == Lower(d, g) then Upper(d, g) else Lower(d, g)
  }

  lemma SwitchStep(d: Disk, m: Record, g: Region, n: nat)
    requires ValidDisk(d) && ValidRecord(m) && Fits64(g) && Ready(d, m, g) && n > 0
    ensures Switch(d, m, g).Some? && Switches(d, m, g, n) == Switches(d, Switch(d, m, g).value, g, n - 1)
  {
    SwitchMovesBoot(d, m, g);
  }

  /** The record after n switches: ready again, only the boot entry changed, and it is where n switches take it. */
  predicate Alternated(d: Disk, m: Record, g: Region, r: Record, n: nat)
    requires ValidDisk(d) && ValidRecord(m) && Fits64(g)
  {
    && ValidRecord(r) && Ready(d, r, g) && r.table[1..] == m.table[1..]
    && r.table[0].start == if n % 2 == 0 then m.table[0].start else OtherStart(d, m, g)
  }

  lemma AlternatedStep(d: Disk, m: Record, m': Record, g: Region, r: Record, n: nat)
    requires ValidDisk(d) && ValidRecord(m) && ValidRecord(m') && Fits64(g) && Ready(d, m, g) && n > 0
    requires m'.table[1..] == m.table[1..] && m'.table[0].start == OtherStart(d, m, g)
    requires Alternated(d, m', g, r, n - 1)
    ensures Alternated(d, m, g, r, n)
  {
    OtherOfOther(d, m, m', g);
    assert n % 2 == 0 <==> (n - 1) % 2 != 0;
  }

  /** Any number of switches: the boot entry alternates between the halves, all else stays. */
  lemma {:induction false} SwitchesAlternate(d: Disk, m: Record, g: Region, n: nat)
    requires ValidDisk(d) && ValidRecord(m) && Fits64(g) && Ready(d, m, g)
    ensures Switches(d, m, g, n).Some? && Alternated(d, m, g, Switches(d, m, g, n).value, n)
    decreases n
  {
    if n > 0 {
      SwitchMovesBoot(d, m, g);
      SwitchStep(d, m, g, n);
      SwitchesAlternate(d, Switch(d, m, g).value, g, n - 1);
      AlternatedStep(d, m, Switch(d, m, g).value, g, Switches(d, m, g, n).value, n);
    }
  }

  lemma OtherOfOther(d: Disk, m: Record, m': Record, g: Region)
    requires ValidDisk(d) && ValidRecord(m) && ValidRecord(m') && Fits64(g) && Ready(d, m, g)
    requires m'.table[0].start == OtherStart(d, m, g)
    ensures OtherStart(d, m', g) == m.table[0].start
  {
    LowerUpper(d, g);
  }

  // ---- the device ---------------------------------------------------------------------------

  class BlockDevice {
    const disk: Disk
    var mbr: Record

    ghost predicate Valid()
      reads this
    {
      ValidDisk(disk) && ValidRecord(mbr)
    }

    constructor (disk: Disk, mbr: Record)
      requires ValidDisk(disk) && ValidRecord(mbr)
      ensures Valid() && this.disk == disk && this.mbr == mbr
    {
      this.disk, this.mbr := disk, mbr;
    }

    method ValidateRegion(g: Region) returns (ok: bool)
      requires Valid() && Fits64(g)
      ensures ok == ValidRegion(disk, g)
    {
      if g.start < 512 || g.size == 0 {
        return false;
      }
      if Rem(g.start, disk.sectorSize) != 0 {
        return false;
      }
      if Rem(g.size, 2 * disk.sectorSize) != 0 {
        return false;
      }
      if Add64(g.start, g.size) >= Times(disk.sectors, disk.sectorSize) {
        return false;
      }
      ok := true;
    }

    method IsRegionFree(g: Region) returns (free: bool)
      requires Valid() && g.size > 0 && Fits64(g)
      ensures free == RegionFree(g, mbr, disk.sectorSize)
    {
      var i := 0;
      while i < 4
        invariant 0 <= i <= 4
        invariant forall k :: 1 <= k < i && mbr.table[k].size != 0 ==> Clear(g, mbr.table[k], disk.sectorSize)
      {
        var e := mbr.table[i];
        if i != 0 && e.size != 0 {
          var first, last := FirstByte(e, disk.sectorSize), LastByte(e, disk.sectorSize);
          if g.start >= first && g.start <= last {
            break;
          }
          if first >= g.start && first <= Add64(g.start, g.size - 1) {
            break;
          }
        }
        i := i + 1;
      }
      free := i == 4;
    }

    method GetInactivePartition(g: Region) returns (partition: Option<Partition>)
      requires Valid() && Fits64(g)
      ensures partition == Inactive(disk, mbr, g)
    {
      partition := None;
      var ok := ValidateRegion(g);
      if !ok || mbr.magicLow != 0x55 || mbr.magicHigh != 0xAA {
        return;
      }
      ok := IsRegionFree(g);
      if !ok || mbr.table[0].start == 0 {
        return;
      }
      var start;
      if Quot(g.start, disk.sectorSize) == mbr.table[0].start {
        start := Add64(g.start, g.size / 2);
      } else if Quot(Add64(g.start, g.size / 2), disk.sectorSize) == mbr.table[0].start {
        start := g.start;
      } else {
        return;
      }
      partition := Some(Partition(start, g.size / 2));
    }

    method GetRawPartitionEntry(entry: Entry, p: Partition) returns (r: Option<Entry>)
      requires Valid()
      ensures r == RawEntry(disk, entry, p)
    {
      if Rem(p.start, disk.sectorSize) != 0 || Rem(p.size, disk.sectorSize) != 0 {
        return None;
      }
      var start := Cut32(Quot(p.start, disk.sectorSize));
      var size := Cut32(Quot(p.size, disk.sectorSize));
      var geometry := Geometry(disk);
      var first := GetChs(entry.chsStart, start, geometry.0, geometry.1);
      var last := GetChs(entry.chsEnd, Cut32(start + size + 0xFFFF_FFFF), geometry.0, geometry.1);
      r := Some(entry.(start := start, size := size, chsStart := first, chsEnd := last));
    }

    method SetBootPartition(p: Partition) returns (ok: bool)
      requires Valid()
      modifies this`mbr
      ensures Valid()
      ensures ok == WithBoot(disk, old(mbr), p).Some?
      ensures mbr == if ok then WithBoot(disk, old(mbr), p).value else old(mbr)
    {
      if mbr.magicLow != 0x55 || mbr.magicHigh != 0xAA {
        return false;
      }
      var entry := GetRawPartitionEntry(mbr.table[0], p);
      if entry.None? {
        return false;
      }
      mbr := mbr.(table := mbr.table[0 := entry.value]);
      ok := true;
    }

    /** One update of the boot partition: the half to write is returned, and then booted. */
    method SwitchBootPartition(g: Region) returns (written: Option<Partition>)
      requires Valid() && Fits64(g)
      modifies this`mbr
      ensures Valid() && (written.Some? <==> Switch(disk, old(mbr), g).Some?)
      ensures written.Some? ==> written == Inactive(disk, old(mbr), g) && mbr == Switch(disk, old(mbr), g).value
      ensures written.None? ==> mbr == old(mbr)
    {
      written := GetInactivePartition(g);
      if written.Some? {
        var ok := SetBootPartition(written.value);
        if !ok {
          written := None;
        }
      }
    }
  }
}
