/**
 The layout of a bundle file: payload, hash tree, signature, and the length of the
 signature in eight bytes; and how a crypt bundle is built, opened and decrypted.
 */
module Bundle {
  import opened Wrappers
  import opened Crypt

  // ---- size of the hash tree ---------------------------------------------------------------

  /** Blocks of hashes for n blocks: 128 hashes of 32 bytes fit a block of 4096. */
  function Above(n: nat): nat { (n + 127) / 128 }

  /** The blocks of all levels, until a level has a single block. */
  function TreeBlocks(n: nat): nat {
    if n <= 1 then 0 else Above(n) + TreeBlocks(Above(n))
  }

  /** The tree is empty exactly for a payload of at most one block. */
  lemma TreeIsEmptyIff(n: nat)
    ensures TreeBlocks(n) == 0 <==> n <= 1
  {
  }

  /** A right shift by seven bits, k times. */
  function Shift(x: nat, k: nat): nat {
    if k == 0 then x else Shift(x / 128, k - 1)
  }

  /** Two to the power of seven times k. */
  function Power128(k: nat): (p: nat)
    ensures p > 0
  {
    if k == 0 then 1 else 128 * Power128(k - 1)
  }

  function AboveTimes(n: nat, k: nat): (a: nat)
    ensures n >= 1 ==> a >= 1
    decreases k
  {
    if k == 0 then n else AboveTimes(Above(n), k - 1)
  }

  /** Rounding up once at the end is rounding up at every level. */
  lemma {:induction false} ShiftRoundsUp(n: nat, k: nat)
    requires n >= 1
    ensures Shift(n + Power128(k) - 1, k) == AboveTimes(n, k)
    decreases k
  {
    if k > 0 {
      var p := Power128(k - 1);
      assert (n + 128 * p - 1) / 128 == Above(n) + p - 1;
      ShiftRoundsUp(Above(n), k - 1);
    }
  }

  lemma {:induction false} ShiftOfPredecessor(n: nat, k: nat)
    requires n >= 1
    ensures Shift(n - 1, k) == AboveTimes(n, k) - 1
    decreases k
  {
    if k > 0 {
      assert (n - 1) / 128 == Above(n) - 1;
      ShiftOfPredecessor(Above(n), k - 1);
    }
  }

  lemma {:induction false} AboveTimesSnoc(n: nat, k: nat)
    ensures AboveTimes(n, k + 1) == Above(AboveTimes(n, k))
    decreases k
  {
    if k > 0 {
      AboveTimesSnoc(Above(n), k - 1);
    }
  }

  lemma {:induction false} ShiftSmall(x: nat, k: nat)
    requires x < Power128(k)
    ensures Shift(x, k) == 0
    decreases k
  {
    if k > 0 {
      ShiftSmall(x / 128, k - 1);
    }
  }

  lemma Power128Of8()
    ensures Power128(8) == 0x100_0000_0000_0000
  {
    assert Power128(4) == 0x1000_0000;
  }

  /** The levels of the tree, then the position behind all of them, counted from the top level down. */
  method HashLevels(blocks: nat) returns (position: nat)
    requires 1 <= blocks < 0x10_0000_0000_0000
    ensures position == blocks + TreeBlocks(blocks)
  {
    var levels, last := 0, blocks - 1;
    Power128Of8();
    ShiftSmall(last, 8);
    while 7 * levels < 64 && Shift(last, levels) > 0
      invariant 0 <= levels <= 8
      invariant forall k :: 0 <= k < levels ==> Shift(last, k) > 0
      decreases 8 - levels
    {
      levels := levels + 1;
    }
    ShiftOfPredecessor(blocks, levels);
    position := blocks;
    var i := levels;
    while i > 0
      invariant 0 <= i <= levels
      invariant position == blocks + TreeBlocks(AboveTimes(blocks, i))
    {
      i := i - 1;
      var size := Shift(blocks + Power128(i + 1) - 1, i + 1);
      ShiftRoundsUp(blocks, i + 1);
      AboveTimesSnoc(blocks, i);
      ShiftOfPredecessor(blocks, i);
      position := position + size;
    }
  }

  // ---- layout ---------------------------------------------------------------------------------

  const MAX_SIGNATURE := 0x10000

  function Frame(payload: Bytes, sig: Bytes): Bytes {
    payload + sig + Big(|sig|, 8)
  }

  /** Reading a file back: where the signature starts, and the signature. */
  function Open(file: Bytes): Option<(nat, Bytes)> {
    if |file| < 8 then None
    else
      var offset := |file| - 8;
      var sigsize := BigValue(file[offset..]);
      if sigsize == 0 || sigsize > offset || sigsize > MAX_SIGNATURE then None
      else Some((offset - sigsize, file[offset - sigsize..offset]))
  }

  /**
   Opening succeeds exactly on files framed with a signature of 1 to 65536 bytes, and
   finds the size and the signature that were framed.
   */
  lemma OpenIffFramed(file: Bytes, size: nat, sig: Bytes)
    ensures Open(file) == Some((size, sig)) <==>
            0 < |sig| <= 0x10000 && size <= |file| && file == Frame(file[..size], sig)
  {
    Power256Of8();
    if Open(file) == Some((size, sig)) {
      var offset := |file| - 8;
      BigOfValue(file[offset..]);
      assert file == file[..size] + file[size..offset] + file[offset..];
    }
    if 0 < |sig| <= MAX_SIGNATURE && size <= |file| && file == Frame(file[..size], sig) {
      var offset := |file| - 8;
      BigRoundTrip(|sig|, 8);
      assert file[offset..] == Big(|sig|, 8);
      assert file[size..offset] == sig;
    }
  }

  lemma OpenRecovers(payload: Bytes, sig: Bytes)
    requires |sig| < 0x1_0000_0000_0000_0000
    ensures Open(Frame(payload, sig)) == if 0 < |sig| <= MAX_SIGNATURE then Some((|payload|, sig)) else None
  {
    var file := Frame(payload, sig);
    assert file[..|payload|] == payload;
    OpenIffFramed(file, |payload|, sig);
    Power256Of8();
    BigRoundTrip(|sig|, 8);
    assert file[|file| - 8..] == Big(|sig|, 8);
  }

  /** Replacing the signature of an open bundle: cut the file at the old one and append the new one. */
  lemma Resign(file: Bytes, size: nat, sig: Bytes, newSig: Bytes)
    requires Open(file) == Some((size, sig)) && 0 < |newSig| <= MAX_SIGNATURE
    ensures size <= |file| && Open(Frame(file[..size], newSig)) == Some((size, newSig))
  {
    OpenIffFramed(file, size, sig);
    OpenRecovers(file[..size], newSig);
  }

  // ---- decryption -------------------------------------------------------------------------------

  /**
   Decrypting a file whose start is an encrypted payload: the output is the payload; the
   loop reports success exactly if nothing or at least one sector follows.
   */
  lemma DecryptPrefix(f: SectorMap, g: SectorMap, m: nat, payload: Bytes, tail: Bytes)
    requires KeepsLength(f) && Undoes(g, f) && |payload| == 4096 * m && m > 0
    ensures var file := Sectors(f, 0, payload) + tail;
            && Processed(|file|, |payload|) == |payload|
            && Sectors(g, 0, file[..Processed(|file|, |payload|)]) == payload
            && (Succeeds(|file|, |payload|) <==> |tail| == 0 || |tail| >= 4096)
  {
    SectorsRoundTrip(f, g, 0, m, payload);
    var file := Sectors(f, 0, payload) + tail;
    assert file[..|payload|] == Sectors(f, 0, payload);
    assert |file| % 4096 == |tail| % 4096;
    if |tail| < 4096 {
      assert |file| - |file| % 4096 == |payload|;
    } else {
      assert |file| - |file| % 4096 >= |payload| + 4096;
    }
  }

  // ---- files ------------------------------------------------------------------------------------

  class BundleFile {
    var content: Bytes

    constructor (content: Bytes)
      ensures this.content == content
    {
      this.content := content;
    }

    /** Encrypts the file; as with the decryption, only a file of whole sectors can be processed. */
    method EncryptPayload(f: SectorMap) returns (ok: bool)
      modifies this
      ensures ok <==> |old(content)| % 4096 == 0
      ensures content == if ok then Sectors(f, 0, old(content)) else old(content)
    {
      var output;
      ok, output := EncryptOrDecrypt(content, f, 0);
      if ok {
        assert content[..Processed(|content|, 0)] == content;
        content := output;
      }
    }

    /** Appends the hash tree; `tree` stands for its blocks, as many as the tree has. */
    method CreateVerity(tree: nat -> Bytes) returns (veritySize: Option<nat>)
      requires forall n: nat :: |tree(n)| == 4096 * n
      requires |content| < 0x1_0000_0000_0000_0000
      modifies this
      ensures veritySize.Some? <==> |old(content)| % 4096 == 0 && |old(content)| > 4096
      ensures veritySize.Some? ==> veritySize.value == 4096 * TreeBlocks(|old(content)| / 4096) >= 4096
      ensures content == if veritySize.Some? then old(content) + tree(TreeBlocks(|old(content)| / 4096)) else old(content)
    {
      var offset := |content|;
      if offset % 4096 != 0 || offset <= 4096 {
        return None;
      }
      var combined := HashLevels(offset / 4096);
      TreeIsEmptyIff(offset / 4096);
      content := content + tree(combined - offset / 4096);
      veritySize := Some(combined * 4096 - offset);
    }

    method AppendSignature(sig: Bytes)
      modifies this
      ensures content == Frame(old(content), sig)
    {
      var offset := |content|;
      content := content + sig;
      offset := |content| - offset;
      content := content + Big(offset, 8);
    }

    /** A copy cut at the given size. */
    method Truncated(size: nat) returns (copy: BundleFile)
      requires size <= |content|
      ensures fresh(copy) && copy.content == content[..size]
    {
      copy := new BundleFile(content[..size]);
    }
  }

  class RaucBundle {
    const file: BundleFile
    var size: nat
    var sigdata: Bytes
    /** What is read from the bundle once it is open. */
    var stream: Bytes

    constructor (file: BundleFile)
      ensures this.file == file && stream == []
    {
      this.file := file;
      size, sigdata, stream := 0, [], [];
    }

    method OpenLocal() returns (ok: bool)
      modifies this
      ensures ok <==> Open(file.content).Some?
      ensures ok ==> (size, sigdata) == Open(file.content).value && stream == file.content
    {
      stream := file.content;
      if |stream| < 8 {
        return false;
      }
      var offset := |stream| - 8;
      var sigsize := BigValue(stream[offset..]);
      if sigsize == 0 {
        return false;
      }
      if sigsize > offset {
        return false;
      }
      if sigsize > MAX_SIGNATURE {
        return false;
      }
      offset := offset - sigsize;
      size := offset;
      sigdata := stream[offset..offset + sigsize];
      ok := true;
    }

    /** Decrypts the file up to the hash tree whose size the manifest tells. */
    method DecryptPayload(g: SectorMap, veritySize: nat) returns (ok: bool)
      modifies this`stream
      ensures ok <==> Succeeds(|file.content|, size - veritySize)
      ensures stream == if ok then Sectors(g, 0, file.content[..Processed(|file.content|, size - veritySize)]) else old(stream)
    {
      var output;
      ok, output := EncryptOrDecrypt(file.content, g, size - veritySize);
      if ok {
        stream := output;
      }
    }
  }

  /** The hash tree of a payload of m blocks. */
  function HashTree(m: nat, tree: nat -> Bytes): Bytes { tree(TreeBlocks(m)) }

  method Build(payload: Bytes, ghost m: nat, sig: Bytes, tree: nat -> Bytes, f: SectorMap, ghost g: SectorMap)
    returns (file: BundleFile, veritySize: Option<nat>)
    requires KeepsLength(f) && Undoes(g, f) && forall n: nat :: |tree(n)| == 4096 * n
    requires |payload| < 0x1_0000_0000_0000_0000 && m == |payload| / 4096
    ensures fresh(file)
    ensures veritySize.Some? <==> |payload| % 4096 == 0 && |payload| > 4096
    ensures veritySize.Some? ==> veritySize.value == |HashTree(m, tree)| >= 4096
    ensures veritySize.Some? ==> file.content == Frame(Sectors(f, 0, payload) + HashTree(m, tree), sig)
  {
    file := new BundleFile(payload);
    veritySize := None;
    var ok := file.EncryptPayload(f);
    if ok {
      SectorsRoundTrip(f, g, 0, m, payload);
      veritySize := file.CreateVerity(tree);
      file.AppendSignature(sig);
    }
  }

  method Read(file: BundleFile, g: SectorMap, veritySize: nat) returns (ok: bool, read: Bytes)
    ensures ok <==> Open(file.content).Some? && Succeeds(|file.content|, Open(file.content).value.0 - veritySize)
    ensures ok ==>
              var limit := Open(file.content).value.0 - veritySize;
              read == Sectors(g, 0, file.content[..Processed(|file.content|, limit)])
  {
    var bundle := new RaucBundle(file);
    ok := bundle.OpenLocal();
    read := [];
    if ok {
      ok := bundle.DecryptPayload(g, veritySize);
      read := bundle.stream;
    }
  }

  lemma LongTail(hashes: Bytes, sig: Bytes)
    requires |hashes| >= 4096
    ensures |hashes + (sig + Big(|sig|, 8))| >= 4096
  {
  }

  lemma Reassociate(a: Bytes, b: Bytes, c: Bytes, d: Bytes)
    ensures a + b + c + d == a + (b + (c + d))
  {
  }

  lemma FrameTail(encrypted: Bytes, hashes: Bytes, sig: Bytes)
    ensures Frame(encrypted + hashes, sig) == encrypted + (hashes + (sig + Big(|sig|, 8)))
  {
    Reassociate(encrypted, hashes, sig, Big(|sig|, 8));
  }

  /** The hash tree gives the loop the sector it looks ahead. */
  lemma CryptBundleDecrypts(f: SectorMap, g: SectorMap, m: nat, payload: Bytes, hashes: Bytes, sig: Bytes)
    requires KeepsLength(f) && Undoes(g, f) && |payload| == 4096 * m && m > 0 && |hashes| >= 4096
    ensures var file := Frame(Sectors(f, 0, payload) + hashes, sig);
            Succeeds(|file|, |payload|) && Sectors(g, 0, file[..Processed(|file|, |payload|)]) == payload
  {
    LongTail(hashes, sig);
    DecryptPrefix(f, g, m, payload, hashes + (sig + Big(|sig|, 8)));
    FrameTail(Sectors(f, 0, payload), hashes, sig);
  }

  /**
   Building a crypt bundle from a payload, opening it and decrypting it: this succeeds
   exactly for payloads of at least two blocks and signatures of 1 byte to 64 KiB, and
   the result is the payload again.
   */
  method BuildAndRead(payload: Bytes, sig: Bytes, tree: nat -> Bytes, c: Cipher, key: Bytes)
    returns (ok: bool, read: Bytes)
    requires Sound(c) && forall n: nat :: |tree(n)| == 4096 * n
    requires |payload| < 0x1_0000_0000_0000_0000 && |sig| < 0x1_0000_0000_0000_0000
    ensures ok <==> |payload| % 4096 == 0 && |payload| > 4096 && 0 < |sig| <= MAX_SIGNATURE
    ensures ok ==> read == payload
  {
    SectorCipherRoundTrip(c, key);
    var f, g := SectorCipher(c, key, true), SectorCipher(c, key, false);
    ghost var m := |payload| / 4096;
    var file, veritySize := Build(payload, m, sig, tree, f, g);
    if veritySize.None? {
      return false, [];
    }
    SectorsRoundTrip(f, g, 0, m, payload);
    OpenRecovers(Sectors(f, 0, payload) + HashTree(m, tree), sig);
    CryptBundleDecrypts(f, g, m, payload, HashTree(m, tree), sig);
    ok, read := Read(file, g, veritySize.value);
  }
}
