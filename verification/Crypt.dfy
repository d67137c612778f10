/**
 Encryption of bundle payloads: AES-CBC over sectors of 4096 bytes, each with its own
 initialisation vector. The block cipher itself is a pair of functions that undo each
 other; the chaining is cipher block chaining as in section 6.2 of NIST SP 800-38A.
 */
module Crypt {
  import opened Units

  type Byte = x: int | 0 <= x < 256

  type Bytes = seq<Byte>

  // ---- numbers as bytes -----------------------------------------------------------------

  function Big(n: nat, k: nat): (r: Bytes)
    ensures |r| == k
    decreases n, k
  {
    if k == 0 then [] else Big(n / 256, k - 1) + [n % 256]
  }

  function BigValue(s: Bytes): nat
    decreases |s|
  {
    if s == [] then 0 else BigValue(s[..|s| - 1]) * 256 + s[|s| - 1]
  }

  function Little(n: nat, k: nat): (r: Bytes)
    ensures |r| == k
    decreases n, k
  {
    if k == 0 then [] else [n % 256] + Little(n / 256, k - 1)
  }

  function LittleValue(s: Bytes): nat {
    if s == [] then 0 else s[0] + 256 * LittleValue(s[1..])
  }

  function Power256(k: nat): (p: nat)
    ensures p > 0
  {
    if k == 0 then 1 else 256 * Power256(k - 1)
  }

  lemma {:induction false} BigRoundTrip(n: nat, k: nat)
    requires n < Power256(k)
    ensures BigValue(Big(n, k)) == n
    decreases k
  {
    if k > 0 {
      var s := Big(n, k);
      assert s[..k - 1] == Big(n / 256, k - 1);
      BigRoundTrip(n / 256, k - 1);
    }
  }

  lemma {:induction false} BigOfValue(s: Bytes)
    ensures BigValue(s) < Power256(|s|) && Big(BigValue(s), |s|) == s
    decreases |s|
  {
    if s != [] {
      var front := s[..|s| - 1];
      BigOfValue(front);
      assert BigValue(s) / 256 == BigValue(front) && BigValue(s) % 256 == s[|s| - 1];
      assert s == front + [s[|s| - 1]];
    }
  }

  lemma {:induction false} LittleRoundTrip(n: nat, k: nat)
    requires n < Power256(k)
    ensures LittleValue(Little(n, k)) == n
    decreases k
  {
    if k > 0 {
      LittleRoundTrip(n / 256, k - 1);
      assert Little(n, k)[1..] == Little(n / 256, k - 1);
    }
  }

  /** Big endian: the byte at position i counts 256 to the power of the number of bytes after it. */
  lemma {:induction false} BigAt(n: nat, k: nat, i: nat)
    requires i < k
    ensures Big(n, k)[i] == n / Power256(k - 1 - i) % 256
    decreases k
  {
    if i < k - 1 {
      BigAt(n / 256, k - 1, i);
      DivideTwice(n, k - 2 - i);
    } else {
      assert Power256(0) == 1;
    }
  }

  /** Little endian: it counts 256 to the power of its position. */
  lemma {:induction false} LittleAt(n: nat, k: nat, i: nat)
    requires i < k
    ensures Little(n, k)[i] == n / Power256(i) % 256
    decreases k
  {
    if i > 0 {
      LittleAt(n / 256, k - 1, i - 1);
      DivideTwice(n, i - 1);
    } else {
      assert Power256(0) == 1;
    }
  }

  lemma DivideTwice(n: nat, j: nat)
    ensures n / 256 / Power256(j) == n / Power256(j + 1)
  {
    var p := Power256(j);
    var q, r := n / 256 / p, n / 256 % p;
    assert n / 256 == q * p + r;
    var x := 256 * r + n % 256;
    assert n == 256 * (q * p + r) + n % 256;
    assert 256 * (q * p) == q * (256 * p);
    assert n == q * (256 * p) + x && 0 <= x < 256 * p;
    QuotientIs(n, 256 * p, q, x);
  }

  lemma QuotientIs(n: nat, d: nat, q: nat, r: nat)
    requires d > 0 && n == q * d + r && r < d
    ensures n / d == q
  {
    var e := n / d - q;
    assert (n / d) * d + n % d == n;
    assert e * d == r - n % d;
    assert e > 0 ==> e * d >= d;
    assert e < 0 ==> e * d + d <= 0;
  }

  lemma Power256Of8()
    ensures Power256(8) == 0x1_0000_0000_0000_0000
  {
    assert Power256(4) == 0x1_0000_0000;
  }

  // ---- exclusive or -----------------------------------------------------------------------

  function Xor(a: nat, b: nat): nat {
    if a == 0 && b == 0 then 0
    else 2 * Xor(a / 2, b / 2) + if a % 2 == b % 2 then 0 else 1
  }

  lemma {:induction false} XorTwice(a: nat, b: nat)
    ensures Xor(Xor(a, b), b) == a
  {
    if a != 0 || b != 0 {
      XorTwice(a / 2, b / 2);
      var x := Xor(a, b);
      assert x / 2 == Xor(a / 2, b / 2);
      assert x == 0 && b == 0 ==> a == 0;
    }
  }

  lemma {:induction false} XorFits(a: nat, b: nat, k: nat)
    requires a < Power2(k) && b < Power2(k)
    ensures Xor(a, b) < Power2(k)
    decreases k
  {
    if k > 0 {
      XorFits(a / 2, b / 2, k - 1);
    }
  }

  function Bit(n: nat, i: nat): nat {
    if i == 0 then n % 2 else Bit(n / 2, i - 1)
  }

  /** Bit by bit: set exactly where the two differ. */
  lemma {:induction false} XorBits(a: nat, b: nat, i: nat)
    ensures Bit(Xor(a, b), i) == if Bit(a, i) == Bit(b, i) then 0 else 1
    decreases i
  {
    var x := Xor(a, b);
    assert x / 2 == Xor(a / 2, b / 2) && x % 2 == if a % 2 == b % 2 then 0 else 1;
    if i > 0 {
      XorBits(a / 2, b / 2, i - 1);
    }
  }

  lemma {:induction false} XorBytesAt(a: Bytes, b: Bytes, i: nat)
    requires |a| == |b| && i < |a|
    ensures XorBytes(a, b)[i] == Xor(a[i], b[i])
  {
    if i > 0 {
      XorBytesAt(a[1..], b[1..], i - 1);
    }
  }

  function Power2(k: nat): (p: nat)
    ensures p > 0
  {
    if k == 0 then 1 else 2 * Power2(k - 1)
  }

  function XorByte(a: Byte, b: Byte): Byte {
    assert Power2(8) == 256 by {
      assert Power2(4) == 16;
    }
    XorFits(a, b, 8);
    Xor(a, b)
  }

  function XorBytes(a: Bytes, b: Bytes): (r: Bytes)
    ensures |a| == |b| ==> |r| == |a|
  {
    if a == [] || b == [] then [] else [XorByte(a[0], b[0])] + XorBytes(a[1..], b[1..])
  }

  lemma {:induction false} XorBytesTwice(a: Bytes, b: Bytes)
    requires |a| == |b|
    ensures XorBytes(XorBytes(a, b), b) == a
  {
    if a != [] {
      XorTwice(a[0], b[0]);
      XorBytesTwice(a[1..], b[1..]);
      assert XorBytes(a, b)[1..] == XorBytes(a[1..], b[1..]);
    }
  }

  // ---- cipher block chaining ----------------------------------------------------------------

  /** A block cipher: key and block to block. */
  datatype Cipher = Cipher(enc: (Bytes, Bytes) -> Bytes, dec: (Bytes, Bytes) -> Bytes)

  ghost predicate Sound(c: Cipher) {
    forall k: Bytes, b: Bytes :: |b| == 16 ==>
      |c.enc(k, b)| == 16 && |c.dec(k, b)| == 16 && c.dec(k, c.enc(k, b)) == b
  }

  function CbcEncrypt(c: Cipher, k: Bytes, iv: Bytes, data: Bytes): Bytes
    decreases |data|
  {
    if |data| < 16 then []
    else
      var block := c.enc(k, XorBytes(data[..16], iv));
      block + CbcEncrypt(c, k, block, data[16..])
  }

  function CbcDecrypt(c: Cipher, k: Bytes, iv: Bytes, data: Bytes): Bytes
    decreases |data|
  {
    if |data| < 16 then []
    else XorBytes(c.dec(k, data[..16]), iv) + CbcDecrypt(c, k, data[..16], data[16..])
  }

  lemma {:induction false} CbcLength(c: Cipher, k: Bytes, iv: Bytes, data: Bytes)
    requires Sound(c) && |iv| == 16 && |data| % 16 == 0
    ensures |CbcEncrypt(c, k, iv, data)| == |data| && |CbcDecrypt(c, k, iv, data)| == |data|
    decreases |data|
  {
    if |data| >= 16 {
      CbcLength(c, k, c.enc(k, XorBytes(data[..16], iv)), data[16..]);
      CbcLength(c, k, data[..16], data[16..]);
    }
  }

  /** Each block is encrypted after being combined with the encrypted one before it, the first one with the vector. */
  lemma {:induction false} CbcChains(c: Cipher, k: Bytes, iv: Bytes, data: Bytes, i: nat)
    requires Sound(c) && |iv| == 16 && |data| % 16 == 0 && 16 * i + 16 <= |data|
    ensures |CbcEncrypt(c, k, iv, data)| == |data|
    ensures var e := CbcEncrypt(c, k, iv, data);
            var before := if i == 0 then iv else e[16 * i - 16..16 * i];
            e[16 * i..16 * i + 16] == c.enc(k, XorBytes(data[16 * i..16 * i + 16], before))
    decreases i
  {
    CbcLength(c, k, iv, data);
    var e, block, rest := CbcEncrypt(c, k, iv, data), c.enc(k, XorBytes(data[..16], iv)), data[16..];
    CbcLength(c, k, block, rest);
    if i > 0 {
      var f := CbcEncrypt(c, k, block, rest);
      CbcChains(c, k, block, rest, i - 1);
      assert e == block + f;
      assert e[16 * i..16 * i + 16] == f[16 * i - 16..16 * i];
      assert rest[16 * i - 16..16 * i] == data[16 * i..16 * i + 16];
      if i == 1 {
        assert e[16 * i - 16..16 * i] == block;
      } else {
        assert e[16 * i - 16..16 * i] == f[16 * i - 32..16 * i - 16];
      }
    }
  }

  lemma {:induction false} CbcRoundTrip(c: Cipher, k: Bytes, iv: Bytes, data: Bytes)
    requires Sound(c) && |iv| == 16 && |data| % 16 == 0
    ensures CbcDecrypt(c, k, iv, CbcEncrypt(c, k, iv, data)) == data
    decreases |data|
  {
    if |data| >= 16 {
      var masked := XorBytes(data[..16], iv);
      var block := c.enc(k, masked);
      var e := CbcEncrypt(c, k, iv, data);
      assert e[..16] == block && e[16..] == CbcEncrypt(c, k, block, data[16..]);
      XorBytesTwice(data[..16], iv);
      CbcRoundTrip(c, k, block, data[16..]);
      assert data == data[..16] + data[16..];
    }
  }

  // ---- initialisation vectors -----------------------------------------------------------------

  /** The start of the sector in units of 512 bytes, computed in 64 bits, then padded with zeros. */
  function Iv(sector: nat): (iv: Bytes)
    ensures |iv| == 16
  {
    Little(Rem(sector * 4096, 0x1_0000_0000_0000_0000) / 512, 8) + [0, 0, 0, 0, 0, 0, 0, 0]
  }

  /** The number of the sector in units of 512 bytes, little endian in the first eight bytes. */
  lemma IvMeaning(sector: nat, i: nat)
    requires i < 16
    ensures Iv(sector)[i] == if i < 8 then 8 * (sector % 0x10_0000_0000_0000) / Power256(i) % 256 else 0
    ensures sector < 0x10_0000_0000_0000 ==> LittleValue(Iv(sector)[..8]) == 8 * sector
  {
    var n := 8 * (sector % 0x10_0000_0000_0000);
    IvNumber(sector);
    if i < 8 {
      LittleAt(n, 8, i);
    }
    Power256Of8();
    LittleRoundTrip(n, 8);
    assert Iv(sector)[..8] == Little(n, 8);
  }

  /** Two sectors share a vector exactly if they are a multiple of 2^52 sectors apart. */
  lemma IvsDiffer(a: nat, b: nat)
    ensures Iv(a) == Iv(b) <==> a % 0x10_0000_0000_0000 == b % 0x10_0000_0000_0000
  {
    IvNumber(a);
    IvNumber(b);
    Power256Of8();
    var x, y := a % 0x10_0000_0000_0000, b % 0x10_0000_0000_0000;
    LittleRoundTrip(8 * x, 8);
    LittleRoundTrip(8 * y, 8);
    assert Iv(a)[..8] == Little(8 * x, 8) && Iv(b)[..8] == Little(8 * y, 8);
  }

  lemma IvNumber(a: nat)
    ensures Rem(a * 4096, 0x1_0000_0000_0000_0000) / 512 == 8 * (a % 0x10_0000_0000_0000)
  {
    AreProductAndQuotient(a * 4096, 0x1_0000_0000_0000_0000);
    var q, x := a / 0x10_0000_0000_0000, a % 0x10_0000_0000_0000;
    assert a * 4096 == q * 0x1_0000_0000_0000_0000 + x * 4096;
  }

  // ---- files -----------------------------------------------------------------------------------

  const SECTOR := 4096

  /** What is done to a sector, given its number. */
  type SectorMap = (nat, Bytes) -> Bytes

  function SectorCipher(c: Cipher, k: Bytes, encrypt: bool): SectorMap {
    (n: nat, data: Bytes) => if encrypt then CbcEncrypt(c, k, Iv(n), data) else CbcDecrypt(c, k, Iv(n), data)
  }

  ghost predicate KeepsLength(f: SectorMap) {
    forall n: nat, data: Bytes :: |data| == 4096 ==> |f(n, data)| == 4096
  }

  ghost predicate Undoes(g: SectorMap, f: SectorMap) {
    forall n: nat, data: Bytes :: |data| == 4096 ==> g(n, f(n, data)) == data
  }

  lemma SectorCipherRoundTrip(c: Cipher, k: Bytes)
    requires Sound(c)
    ensures KeepsLength(SectorCipher(c, k, true)) && KeepsLength(SectorCipher(c, k, false))
    ensures Undoes(SectorCipher(c, k, false), SectorCipher(c, k, true))
  {
    forall n: nat, data: Bytes | |data| == 4096
      ensures |SectorCipher(c, k, true)(n, data)| == 4096 && |SectorCipher(c, k, false)(n, data)| == 4096
      ensures SectorCipher(c, k, false)(n, SectorCipher(c, k, true)(n, data)) == data
    {
      CbcLength(c, k, Iv(n), data);
      CbcRoundTrip(c, k, Iv(n), data);
    }
  }

  /** Every whole sector of the data, as the sectors from number n on. */
  function Sectors(f: SectorMap, n: nat, data: Bytes): Bytes
    decreases |data|
  {
    if |data| < 4096 then [] else f(n, data[..4096]) + Sectors(f, n + 1, data[4096..])
  }

  lemma SectorsCons(f: SectorMap, n: nat, first: Bytes, rest: Bytes)
    requires |first| == 4096
    ensures Sectors(f, n, first + rest) == f(n, first) + Sectors(f, n + 1, rest)
  {
    var all := first + rest;
    assert all[..4096] == first && all[4096..] == rest;
  }

  lemma {:induction false} SectorsSnoc(f: SectorMap, n: nat, m: nat, data: Bytes, last: Bytes)
    requires |data| == 4096 * m && |last| == 4096
    ensures Sectors(f, n, data + last) == Sectors(f, n, data) + f(n + m, last)
    decreases m
  {
    if m == 0 {
      assert data == [] && data + last == last + [];
      SectorsCons(f, n, last, []);
    } else {
      var first, rest := data[..4096], data[4096..];
      SectorsSnoc(f, n + 1, m - 1, rest, last);
      assert data == first + rest && data + last == first + (rest + last);
      SectorsCons(f, n, first, rest);
      SectorsCons(f, n, first, rest + last);
    }
  }

  function SectorOf(data: Bytes, i: nat): Bytes
    requires 4096 * i + 4096 <= |data|
  {
    data[4096 * i..4096 * i + 4096]
  }

  lemma SectorOfCons(first: Bytes, rest: Bytes, i: nat)
    requires |first| == 4096 && i > 0 && 4096 * i <= |rest|
    ensures SectorOf(first + rest, i) == SectorOf(rest, i - 1)
  {
  }

  /** Each sector goes through with its own number, and stays where it is. */
  lemma {:induction false} SectorAt(f: SectorMap, n: nat, m: nat, data: Bytes, i: nat)
    requires KeepsLength(f) && |data| == 4096 * m && i < m
    ensures |Sectors(f, n, data)| == |data|
    ensures SectorOf(Sectors(f, n, data), i) == f(n + i, SectorOf(data, i))
    decreases m
  {
    var first, rest := data[..4096], data[4096..];
    assert data == first + rest;
    SectorsCons(f, n, first, rest);
    SectorsLength(f, n + 1, m - 1, rest);
    if i > 0 {
      SectorAt(f, n + 1, m - 1, rest, i - 1);
      SectorOfCons(f(n, first), Sectors(f, n + 1, rest), i);
      SectorOfCons(first, rest, i);
    }
  }

  lemma {:induction false} SectorsLength(f: SectorMap, n: nat, m: nat, data: Bytes)
    requires KeepsLength(f) && |data| == 4096 * m
    ensures |Sectors(f, n, data)| == |data|
    decreases m
  {
    if m > 0 {
      var first, rest := data[..4096], data[4096..];
      assert data == first + rest;
      SectorsLength(f, n + 1, m - 1, rest);
      SectorsCons(f, n, first, rest);
    }
  }

  /** What a payload becomes, sector by sector: chained, with the vector of the sector. */
  lemma EncryptedSector(c: Cipher, k: Bytes, encrypt: bool, m: nat, data: Bytes, i: nat)
    requires Sound(c) && |data| == 4096 * m && i < m
    ensures |Sectors(SectorCipher(c, k, encrypt), 0, data)| == |data|
    ensures var e, d := SectorOf(Sectors(SectorCipher(c, k, encrypt), 0, data), i), SectorOf(data, i);
            e == if encrypt then CbcEncrypt(c, k, Iv(i), d) else CbcDecrypt(c, k, Iv(i), d)
  {
    SectorCipherRoundTrip(c, k);
    SectorAt(SectorCipher(c, k, encrypt), 0, m, data, i);
  }

  /** Whole files: sectors are undone one by one. */
  lemma {:induction false} SectorsRoundTrip(f: SectorMap, g: SectorMap, n: nat, m: nat, data: Bytes)
    requires KeepsLength(f) && Undoes(g, f) && |data| == 4096 * m
    ensures |Sectors(f, n, data)| == |data| && Sectors(g, n, Sectors(f, n, data)) == data
    decreases m
  {
    if m > 0 {
      var first, rest := data[..4096], data[4096..];
      assert data == first + rest;
      SectorsRoundTrip(f, g, n + 1, m - 1, rest);
      SectorsCons(f, n, first, rest);
      SectorsCons(g, n, f(n, first), Sectors(f, n + 1, rest));
    }
  }

  /** How many bytes are processed: all whole sectors, or those within the limit if there is one. */
  function Processed(size: nat, maxsize: int): (p: nat)
    ensures p <= size && p % 4096 == 0
  {
    var whole := size - size % 4096;
    if maxsize == 0 || whole <= maxsize then whole
    else if maxsize < 0 then 0
    else maxsize - maxsize % 4096
  }

  /** Success: the file ends with a whole sector, or a whole sector exceeds the limit before its end. */
  predicate Succeeds(size: nat, maxsize: int) {
    size % 4096 == 0 || (maxsize != 0 && size >= 4096 && maxsize < size - size % 4096)
  }

  /**
   The loop over the sectors of a file. It looks one sector ahead: the sector that would
   exceed the limit is read, and only then the loop ends.
   */
  method EncryptOrDecrypt(input: Bytes, f: SectorMap, maxsize: int) returns (ok: bool, output: Bytes)
    ensures ok <==> Succeeds(|input|, maxsize)
    ensures output == Sectors(f, 0, input[..Processed(|input|, maxsize)])
  {
    var sectorCount: nat, doneSize: nat := 0, 0;
    output := [];
    while true
      invariant doneSize == 4096 * sectorCount <= |input|
      invariant sectorCount == 0 || maxsize == 0 || 4096 * sectorCount <= maxsize
      invariant output == Sectors(f, 0, input[..4096 * sectorCount])
      decreases |input| - 4096 * sectorCount
    {
      var length := if |input| - doneSize < SECTOR then |input| - doneSize else SECTOR;
      var data := input[doneSize..doneSize + length];
      doneSize := doneSize + length;
      if length <= 0 || length < SECTOR || (maxsize != 0 && doneSize > maxsize) {
        Stops(|input|, maxsize, sectorCount);
        ok := length <= 0 || length == SECTOR;
        return;
      }
      SectorsSnoc(f, 0, sectorCount, input[..4096 * sectorCount], data);
      assert input[..4096 * sectorCount] + data == input[..4096 * (sectorCount + 1)];
      output := output + f(sectorCount, data);
      sectorCount := sectorCount + 1;
    }
  }

  /** Where the loop ends: at the end of the file, in front of a partial sector, or at the limit. */
  lemma Stops(size: nat, maxsize: int, n: nat)
    requires 4096 * n <= size && (n == 0 || maxsize == 0 || 4096 * n <= maxsize)
    requires size < 4096 * n + 4096 || (maxsize != 0 && 4096 * n + 4096 > maxsize)
    ensures Processed(size, maxsize) == 4096 * n
    ensures Succeeds(size, maxsize) <==> size == 4096 * n || size >= 4096 * n + 4096
  {
  }
}
