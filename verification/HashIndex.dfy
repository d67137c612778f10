/**
 The chunk hash index: chunk numbers sorted by chunk hash, searched by bisection,
 restricted to a window of chunk numbers that may be read.
 */
module HashIndex {
  import opened Wrappers

  newtype u32 = x: int | 0 <= x < 0x1_0000_0000

  const MAX_U32: u32 := 0xffff_ffff

  /** The bytes of a SHA-256 hash. */
  type Hash = h: seq<nat> | |h| == 32 witness seq(32, i => 0)

  type Chunk = seq<nat>

  // ---- the order of the lookup table ------------------------------------------------

  /** Lexicographic order of byte strings, as memcmp has it. */
  predicate Less(a: seq<nat>, b: seq<nat>)
    requires |a| == |b|
  {
    a != [] && (a[0] < b[0] || (a[0] == b[0] && Less(a[1..], b[1..])))
  }

  function Memcmp(a: seq<nat>, b: seq<nat>): int
    requires |a| == |b|
  {
    if a == b then 0 else if Less(a, b) then -1 else 1
  }

  lemma {:induction false} LessTotal(a: seq<nat>, b: seq<nat>)
    requires |a| == |b|
    ensures a == b ==> !Less(a, b)
    ensures a != b ==> Less(a, b) != Less(b, a)
  {
    if a != [] {
      LessTotal(a[1..], b[1..]);
      assert a == [a[0]] + a[1..] && b == [b[0]] + b[1..];
    }
  }

  lemma {:induction false} LessTransitive(a: seq<nat>, b: seq<nat>, c: seq<nat>)
    requires |a| == |b| == |c| && Less(a, b) && Less(b, c)
    ensures Less(a, c)
  {
    if a[0] == b[0] == c[0] {
      LessTransitive(a[1..], b[1..], c[1..]);
    }
  }

  /** By hash, and identical hashes by chunk number. */
  predicate Before(hashes: seq<Hash>, a: u32, b: u32)
    requires a as int < |hashes| && b as int < |hashes|
  {
    Less(hashes[a], hashes[b]) || (hashes[a] == hashes[b] && a < b)
  }

  lemma BeforeTotal(hashes: seq<Hash>, a: u32, b: u32)
    requires a as int < |hashes| && b as int < |hashes|
    ensures a == b ==> !Before(hashes, a, b)
    ensures a != b ==> Before(hashes, a, b) != Before(hashes, b, a)
  {
    LessTotal(hashes[a], hashes[b]);
  }

  lemma BeforeTransitive(hashes: seq<Hash>, a: u32, b: u32, c: u32)
    requires a as int < |hashes| && b as int < |hashes| && c as int < |hashes|
    requires Before(hashes, a, b) && Before(hashes, b, c)
    ensures Before(hashes, a, c)
  {
    if Less(hashes[a], hashes[b]) && Less(hashes[b], hashes[c]) {
      LessTransitive(hashes[a], hashes[b], hashes[c]);
    }
  }

  ghost predicate InRange(hashes: seq<Hash>, l: seq<u32>) {
    forall i :: 0 <= i < |l| ==> l[i] as int < |hashes|
  }

  ghost predicate Sorted(hashes: seq<Hash>, l: seq<u32>)
    requires InRange(hashes, l)
  {
    forall i, j :: 0 <= i < j < |l| ==> Before(hashes, l[i], l[j])
  }

  /** A sorted permutation of all chunk numbers of the hash list. */
  ghost predicate IsLookup(hashes: seq<Hash>, l: seq<u32>) {
    && |l| == |hashes|
    && InRange(hashes, l) && Sorted(hashes, l)
    && forall c: u32 :: c as int < |hashes| ==> c in l
  }

  /** Sorted tables with the same entries are equal. */
  lemma {:induction false} SortedUnique(hashes: seq<Hash>, a: seq<u32>, b: seq<u32>)
    requires InRange(hashes, a) && InRange(hashes, b) && Sorted(hashes, a) && Sorted(hashes, b)
    requires forall c :: c in a <==> c in b
    ensures a == b
  {
    assert |a| > 0 ==> a[0] in a;
    assert |b| > 0 ==> b[0] in b;
    if a != [] {
      assert a[0] in b && b[0] in a;
      var i :| 0 <= i < |b| && b[i] == a[0];
      var j :| 0 <= j < |a| && a[j] == b[0];
      if a[0] != b[0] {
        BeforeTotal(hashes, a[0], b[0]);
      }
      forall c
        ensures c in a[1..] <==> c in b[1..]
      {
        BeforeTotal(hashes, a[0], a[0]);
        if c in a[1..] {
          assert c in b && c != a[0];
        }
        if c in b[1..] {
          assert c in a && c != b[0];
        }
      }
      SortedUnique(hashes, a[1..], b[1..]);
    }
  }

  // ---- searching -----------------------------------------------------------------

  ghost predicate InWindow(c: u32, below: u32, from: u32) {
    below <= c < from
  }

  /** The lowest chunk number in the window with this hash, counted up from c. */
  function LinearScan(hashes: seq<Hash>, hash: Hash, below: u32, from: u32, c: u32): (r: Option<u32>)
    requires |hashes| < 0x1_0000_0000 && c as int <= |hashes|
    ensures r.Some? ==> c <= r.value && r.value as int < |hashes| && hashes[r.value] == hash && InWindow(r.value, below, from)
    ensures r.Some? ==> forall d: u32 :: c <= d < r.value && hashes[d] == hash ==> !InWindow(d, below, from)
    ensures r.None? ==> forall d: u32 :: c <= d && d as int < |hashes| && hashes[d] == hash ==>
              !InWindow(d, below, from)
    decreases |hashes| - c as int
  {
    if c as int == |hashes| then None
    else if hashes[c] == hash && below <= c < from then Some(c)
    else LinearScan(hashes, hash, below, from, c + 1)
  }

  /** Where the bisection stops on an entry with this hash. */
  function Bisect(hashes: seq<Hash>, l: seq<u32>, hash: Hash, left: u32, right: u32): (r: Option<u32>)
    requires InRange(hashes, l) && right as int < |l|
    ensures r.Some? ==> left <= r.value <= right && hashes[l[r.value]] == hash
    decreases right as int - left as int
  {
    if left > right then None
    else
      var middle := left + (right - left) / 2;
      var cmp := Memcmp(hashes[l[middle]], hash);
      if cmp == 0 then Some(middle)
      else if cmp < 0 then
        if middle == right then None else Bisect(hashes, l, hash, middle + 1, right)
      else if middle == left then None
      else Bisect(hashes, l, hash, left, middle - 1)
  }

  /** One round of the bisection loop; at the lower end it stops instead of going below zero. */
  lemma BisectStep(hashes: seq<Hash>, l: seq<u32>, hash: Hash, left: u32, right: u32)
    requires InRange(hashes, l) && right as int < |l| && left <= right < MAX_U32
    ensures var middle := left + (right - left) / 2;
            var cmp, r := Memcmp(hashes[l[middle]], hash), Bisect(hashes, l, hash, left, right);
            && left <= middle <= right
            && (cmp == 0 ==> r == Some(middle))
            && (cmp < 0 ==> r == Bisect(hashes, l, hash, middle + 1, right))
            && (cmp > 0 && middle > 0 ==> r == Bisect(hashes, l, hash, left, middle - 1))
            && (cmp > 0 && middle == 0 ==> r == None)
  {
  }

  /** Bisection finds the hash whenever it occurs between its bounds. */
  lemma {:induction false} BisectComplete(hashes: seq<Hash>, l: seq<u32>, hash: Hash, left: u32, right: u32, k: u32)
    requires InRange(hashes, l) && Sorted(hashes, l) && right as int < |l|
    requires left <= k <= right && hashes[l[k]] == hash
    ensures Bisect(hashes, l, hash, left, right).Some?
    decreases right as int - left as int
  {
    var middle := left + (right - left) / 2;
    var m := hashes[l[middle]];
    if m != hash {
      LessTotal(m, hash);
      if k < middle {
        assert Before(hashes, l[k], l[middle]);
        BisectComplete(hashes, l, hash, left, middle - 1, k);
      } else {
        assert Before(hashes, l[middle], l[k]);
        BisectComplete(hashes, l, hash, middle + 1, right, k);
      }
    }
  }

  /** First position of the run of equal hashes that ends at m. */
  function RunStart(hashes: seq<Hash>, l: seq<u32>, hash: Hash, m: u32): (s: u32)
    requires InRange(hashes, l) && m as int < |l| && hashes[l[m]] == hash
    ensures s <= m && (s > 0 ==> hashes[l[s - 1]] != hash)
    ensures forall i: u32 :: s <= i <= m ==> hashes[l[i]] == hash
  {
    if m == 0 || hashes[l[m - 1]] != hash then m else RunStart(hashes, l, hash, m - 1)
  }

  /**
   Where the forward search begins: at the start of the run, unless the run starts at
   the first entry of the table, when the search stays where the bisection stopped.
   */
  function ScanStart(hashes: seq<Hash>, l: seq<u32>, hash: Hash, m: u32): (s: u32)
    requires InRange(hashes, l) && m as int < |l| && hashes[l[m]] == hash
    ensures s <= m
  {
    var s := RunStart(hashes, l, hash, m);
    if s == 0 then m else s
  }

  function ForwardScan(hashes: seq<Hash>, l: seq<u32>, hash: Hash, below: u32, from: u32, count: u32,
                       i: u32): (r: Option<u32>)
    requires InRange(hashes, l) && count as int <= |l| && i <= count
    ensures r.Some? ==> i <= r.value < count && hashes[l[r.value]] == hash && InWindow(l[r.value], below, from)
    decreases count as int - i as int
  {
    if i == count || hashes[l[i]] != hash || l[i] >= from then None
    else if l[i] < below then ForwardScan(hashes, l, hash, below, from, count, i + 1)
    else Some(i)
  }

  /** The chunk number that the index search returns. */
  function SearchResult(hashes: seq<Hash>, l: seq<u32>, hash: Hash, below: u32, from: u32, count: u32): (r: Option<u32>)
    requires InRange(hashes, l) && 0 < count && count as int <= |l|
    ensures r.Some? ==> r.value as int < |hashes| && hashes[r.value] == hash && InWindow(r.value, below, from)
  {
    match Bisect(hashes, l, hash, 0, count - 1)
    case None => None
    case Some(m) =>
      match ForwardScan(hashes, l, hash, below, from, count, ScanStart(hashes, l, hash, m))
      case None => None
      case Some(i) => Some(l[i])
  }

  /** The forward search finds the first entry of the run that lies in the window. */
  lemma {:induction false} ForwardScanFirst(hashes: seq<Hash>, l: seq<u32>, hash: Hash, below: u32, from: u32,
                                            count: u32, i: u32, k: u32)
    requires IsLookup(hashes, l) && count as int <= |l|
    requires i <= k < count
    requires forall j: u32 :: i <= j <= k ==> hashes[l[j]] == hash
    requires InWindow(l[k], below, from)
    ensures var r := ForwardScan(hashes, l, hash, below, from, count, i);
            r.Some? && l[r.value] <= l[k]
    decreases k as int - i as int
  {
    assert forall j: u32 :: i <= j < k ==> Before(hashes, l[j], l[k]);
    LessTotal(hash, hash);
    if i < k && !InWindow(l[i], below, from) {
      ForwardScanFirst(hashes, l, hash, below, from, count, i + 1, k);
    }
  }

  /** An entry of the window, past the end of which the bisection may have stopped. */
  ghost predicate Overlooked(hashes: seq<Hash>, l: seq<u32>, hash: Hash, below: u32, from: u32, m: u32)
    requires InRange(hashes, l) && m as int < |l|
  {
    hashes[l[0]] == hash && exists j: u32 :: j < m && InWindow(l[j], below, from)
  }

  /** k is where the linear scan stops: the forward search finds it unless it begins after it. */
  lemma FoundFrom(hashes: seq<Hash>, l: seq<u32>, hash: Hash, below: u32, from: u32, count: u32, m: u32, k: u32)
    requires IsLookup(hashes, l) && count as int <= |hashes| < 0x1_0000_0000
    requires m < count && k < count && hashes[l[m]] == hash
    requires LinearScan(hashes, hash, below, from, 0) == Some(l[k])
    ensures var r := ForwardScan(hashes, l, hash, below, from, count, ScanStart(hashes, l, hash, m));
            (r.Some? && l[r.value] == l[k]) <==> ScanStart(hashes, l, hash, m) <= k
  {
    var s := ScanStart(hashes, l, hash, m);
    RunIsContiguous(hashes, l, hash, m, k);
    var r := ForwardScan(hashes, l, hash, below, from, count, s);
    if s <= k {
      ForwardScanFirst(hashes, l, hash, below, from, count, s, k);
    } else if r.Some? {
      assert Before(hashes, l[k], l[r.value]);
      BeforeTotal(hashes, l[k], l[r.value]);
      BeforeTotal(hashes, l[k], l[k]);
    }
  }

  lemma OverlookedMeaning(hashes: seq<Hash>, l: seq<u32>, hash: Hash, below: u32, from: u32, m: u32, k: u32)
    requires IsLookup(hashes, l) && |hashes| < 0x1_0000_0000
    requires m as int < |l| && k as int < |l| && hashes[l[m]] == hash
    requires LinearScan(hashes, hash, below, from, 0) == Some(l[k])
    ensures ScanStart(hashes, l, hash, m) <= k <==> !Overlooked(hashes, l, hash, below, from, m)
  {
    var s := RunStart(hashes, l, hash, m);
    RunIsContiguous(hashes, l, hash, m, k);
    LessTotal(hash, hash);
    if hashes[l[0]] == hash {
      RunIsContiguous(hashes, l, hash, m, 0);
      assert forall j: u32 :: j < k ==> Before(hashes, l[j], l[k]);
      forall j: u32 | j < m && InWindow(l[j], below, from)
        ensures k <= j
      {
        assert l[k] <= l[j];
      }
    }
  }

  lemma AgreesOnHit(hashes: seq<Hash>, l: seq<u32>, hash: Hash, below: u32, from: u32, count: u32, k: u32)
    requires IsLookup(hashes, l) && count as int <= |hashes| < 0x1_0000_0000 && k < count
    requires LinearScan(hashes, hash, below, from, 0) == Some(l[k])
    ensures Bisect(hashes, l, hash, 0, count - 1).Some?
    ensures SearchResult(hashes, l, hash, below, from, count) == Some(l[k]) <==>
            !Overlooked(hashes, l, hash, below, from, Bisect(hashes, l, hash, 0, count - 1).value)
  {
    BisectComplete(hashes, l, hash, 0, count - 1, k);
    var m := Bisect(hashes, l, hash, 0, count - 1).value;
    FoundFrom(hashes, l, hash, below, from, count, m, k);
    OverlookedMeaning(hashes, l, hash, below, from, m, k);
  }

  /**
   An index with more hashes than the data has chunks is searched in its first entries
   only: the hash has matches in the window, but all of them come later in the table.
   */
  ghost predicate CutOff(hashes: seq<Hash>, l: seq<u32>, hash: Hash, below: u32, from: u32, count: u32)
    requires InRange(hashes, l) && count as int <= |l| < 0x1_0000_0000
  {
    && (exists j: u32 :: j as int < |l| && hashes[l[j]] == hash && InWindow(l[j], below, from))
    && forall j: u32 :: j < count && hashes[l[j]] == hash ==> !InWindow(l[j], below, from)
  }

  /**
   The search agrees with the linear scan exactly unless the matches are cut off, or the
   hash is the smallest one and the bisection stops past an entry of the window.
   */
  lemma SearchAgrees(hashes: seq<Hash>, l: seq<u32>, hash: Hash, below: u32, from: u32, count: u32)
    requires IsLookup(hashes, l) && 0 < count as int <= |hashes| < 0x1_0000_0000
    ensures var m := Bisect(hashes, l, hash, 0, count - 1);
            SearchResult(hashes, l, hash, below, from, count) == LinearScan(hashes, hash, below, from, 0) <==>
            !(m.Some? && Overlooked(hashes, l, hash, below, from, m.value))
                && !CutOff(hashes, l, hash, below, from, count)
  {
    var m := Bisect(hashes, l, hash, 0, count - 1);
    var scan := LinearScan(hashes, hash, below, from, 0);
    if scan.Some? {
      assert scan.value in l;
      var k: int :| 0 <= k < |l| && l[k] == scan.value;
      if k < count as int {
        AgreesOnHit(hashes, l, hash, below, from, count, k as u32);
        assert !CutOff(hashes, l, hash, below, from, count);
      } else {
        CutOffMeaning(hashes, l, hash, below, from, count, k as u32);
      }
    } else if m.Some? && hashes[l[0]] == hash {
      RunIsContiguous(hashes, l, hash, m.value, 0);
    }
  }

  /** What the linear scan finds is cut off if it stands too late in the table. */
  lemma CutOffMeaning(hashes: seq<Hash>, l: seq<u32>, hash: Hash, below: u32, from: u32, count: u32, k: u32)
    requires IsLookup(hashes, l) && 0 < count as int <= |hashes| < 0x1_0000_0000
    requires count <= k && k as int < |l| && LinearScan(hashes, hash, below, from, 0) == Some(l[k])
    ensures CutOff(hashes, l, hash, below, from, count)
    ensures SearchResult(hashes, l, hash, below, from, count) != Some(l[k])
  {
    LessTotal(hash, hash);
    forall j: u32 | j < count && hashes[l[j]] == hash ensures !InWindow(l[j], below, from) {
      assert Before(hashes, l[j], l[k]);
    }
  }

  /** Two hashes, one chunk: the search does not find the chunk, whose entry is the second of the table. */
  lemma LongIndexMissesChunk(low: Hash, high: Hash)
    requires Less(low, high)
    ensures var hashes: seq<Hash>, l: seq<u32> := [high, low], [1, 0];
            && IsLookup(hashes, l)
            && SearchResult(hashes, l, high, 0, MAX_U32, 1) == None
            && LinearScan(hashes, high, 0, MAX_U32, 0) == Some(0)
  {
    var hashes: seq<Hash>, l: seq<u32> := [high, low], [1, 0];
    assert l[0] == 1 && l[1] == 0;
    LessTotal(low, high);
    assert Before(hashes, 1, 0);
    assert Bisect(hashes, l, high, 0, 0) == None;
  }

  /** Entries with equal hashes are adjacent, so the run around m reaches every one of them. */
  lemma RunIsContiguous(hashes: seq<Hash>, l: seq<u32>, hash: Hash, m: u32, k: u32)
    requires IsLookup(hashes, l)
    requires m as int < |l| && k as int < |l| && hashes[l[m]] == hash && hashes[l[k]] == hash
    ensures k <= m ==> RunStart(hashes, l, hash, m) <= k
    ensures forall i: u32 :: (k <= i <= m || m <= i <= k) ==> hashes[l[i]] == hash
  {
    forall i: u32 | k <= i <= m || m <= i <= k
      ensures hashes[l[i]] == hash
    {
      LessTotal(hashes[l[i]], hash);
      assert k < i ==> Before(hashes, l[k], l[i]);
      assert i < m ==> Before(hashes, l[i], l[m]);
      assert m < i ==> Before(hashes, l[m], l[i]);
      assert i < k ==> Before(hashes, l[i], l[k]);
    }
  }

  // ---- where the bisection stops -----------------------------------------------------

  /** How many of the first i entries have this hash. */
  function RunLength(hashes: seq<Hash>, l: seq<u32>, hash: Hash, i: nat): (r: nat)
    requires InRange(hashes, l) && i <= |l|
    ensures r <= i
  {
    if i == 0 then 0 else RunLength(hashes, l, hash, i - 1) + if hashes[l[i - 1]] == hash then 1 else 0
  }

  /** The first of right / 2, (right / 2 - 1) / 2, and so on, that is below r. */
  function StopBelow(right: u32, r: u32): (m: u32)
    requires r > 0
    ensures m < r && m <= right
  {
    if right / 2 < r then right / 2 else StopBelow(right / 2 - 1, r)
  }

  /** If the hash is the smallest one, its entries are the first ones. */
  lemma {:induction false} RunIsFront(hashes: seq<Hash>, l: seq<u32>, hash: Hash, i: nat, j: nat)
    requires IsLookup(hashes, l) && |l| < 0x1_0000_0000 && 0 < i <= |l| && hashes[l[0]] == hash && j < i
    ensures hashes[l[j]] == hash <==> j < RunLength(hashes, l, hash, i)
    ensures RunLength(hashes, l, hash, i) > 0
    decreases i
  {
    if i > 1 {
      forall k: nat | k < i - 1
        ensures hashes[l[k]] == hash <==> k < RunLength(hashes, l, hash, i - 1)
      {
        RunIsFront(hashes, l, hash, i - 1, k);
      }
      RunIsFront(hashes, l, hash, i - 1, 0);
      if hashes[l[i - 1]] == hash {
        RunIsContiguous(hashes, l, hash, 0, (i - 1) as u32);
        forall k: nat | k < i - 1 ensures hashes[l[k]] == hash {
          assert hashes[l[k as u32]] == hash;
        }
        assert RunLength(hashes, l, hash, i - 1) >= i - 1;
      }
    } else {
      assert RunLength(hashes, l, hash, 0) == 0;
    }
  }

  lemma BisectFront(hashes: seq<Hash>, l: seq<u32>, hash: Hash, right: u32)
    requires IsLookup(hashes, l) && right as int < |l| < 0x1_0000_0000 && hashes[l[0]] == hash
    ensures hashes[l[right / 2]] == hash ==> Bisect(hashes, l, hash, 0, right) == Some(right / 2)
    ensures hashes[l[right / 2]] != hash ==>
              right / 2 > 0 && Bisect(hashes, l, hash, 0, right) == Bisect(hashes, l, hash, 0, right / 2 - 1)
  {
    var middle := right / 2;
    BisectStep(hashes, l, hash, 0, right);
    LessTotal(hash, hash);
    if hashes[l[middle]] != hash {
      BeyondRun(hashes, l, hash, middle);
    }
  }

  lemma {:induction false} StopsBelowRun(hashes: seq<Hash>, l: seq<u32>, hash: Hash, right: u32, r: u32)
    requires IsLookup(hashes, l) && right as int < |l| < 0x1_0000_0000 && hashes[l[0]] == hash && r > 0
    requires forall i: u32 :: i <= right ==> (hashes[l[i]] == hash <==> i < r)
    ensures Bisect(hashes, l, hash, 0, right) == Some(StopBelow(right, r))
    decreases right
  {
    BisectFront(hashes, l, hash, right);
    if right / 2 >= r {
      StopsBelowRun(hashes, l, hash, right / 2 - 1, r);
    }
  }

  /** For the smallest hash, the place where the bisection stops follows from the numbers of entries and of matches. */
  lemma StopsBelow(hashes: seq<Hash>, l: seq<u32>, hash: Hash, count: u32)
    requires IsLookup(hashes, l) && 0 < count && count as int <= |l| < 0x1_0000_0000 && hashes[l[0]] == hash
    ensures RunLength(hashes, l, hash, count as nat) > 0
    ensures Bisect(hashes, l, hash, 0, count - 1) ==
              Some(StopBelow(count - 1, RunLength(hashes, l, hash, count as nat) as u32))
  {
    var r := RunLength(hashes, l, hash, count as nat);
    forall i: u32 | i < count ensures r > 0 && (hashes[l[i]] == hash <==> i < r as u32) {
      RunIsFront(hashes, l, hash, count as nat, i as nat);
    }
    assert hashes[l[0]] == hash;
    StopsBelowRun(hashes, l, hash, count - 1, r as u32);
  }

  /** Other entries come after those of the smallest hash. */
  lemma BeyondRun(hashes: seq<Hash>, l: seq<u32>, hash: Hash, i: u32)
    requires IsLookup(hashes, l) && i as int < |l| && hashes[l[0]] == hash && hashes[l[i]] != hash
    ensures i > 0 && Memcmp(hashes[l[i]], hash) > 0
  {
    assert Before(hashes, l[0], l[i]);
    LessTotal(hash, hashes[l[i]]);
  }

  /** An entry of the window that comes before the place where the bisection must stop. */
  ghost predicate StopsLate(hashes: seq<Hash>, l: seq<u32>, hash: Hash, below: u32, from: u32, count: u32)
    requires InRange(hashes, l) && 0 < count && count as int <= |l|
  {
    var r := RunLength(hashes, l, hash, count as nat);
    && hashes[l[0]] == hash && 0 < r < 0x1_0000_0000
    && exists j: u32 :: j < StopBelow(count - 1, r as u32) && InWindow(l[j], below, from)
  }

  /**
   The agreement, with a condition that needs no search: the hash is not the smallest one,
   or no entry of the window comes before the place that the numbers of entries and of
   matches determine; and the matches are not cut off.
   */
  lemma SearchAgreesIff(hashes: seq<Hash>, l: seq<u32>, hash: Hash, below: u32, from: u32, count: u32)
    requires IsLookup(hashes, l) && 0 < count as int <= |hashes| < 0x1_0000_0000
    ensures SearchResult(hashes, l, hash, below, from, count) == LinearScan(hashes, hash, below, from, 0) <==>
            !StopsLate(hashes, l, hash, below, from, count) && !CutOff(hashes, l, hash, below, from, count)
  {
    SearchAgrees(hashes, l, hash, below, from, count);
    LateIsOverlooked(hashes, l, hash, below, from, count);
  }

  lemma LateIsOverlooked(hashes: seq<Hash>, l: seq<u32>, hash: Hash, below: u32, from: u32, count: u32)
    requires IsLookup(hashes, l) && 0 < count as int <= |hashes| < 0x1_0000_0000
    ensures var m := Bisect(hashes, l, hash, 0, count - 1);
            StopsLate(hashes, l, hash, below, from, count) <==>
                m.Some? && Overlooked(hashes, l, hash, below, from, m.value)
  {
    if hashes[l[0]] == hash {
      StopsBelow(hashes, l, hash, count);
    }
  }

  /** The complete agreement whenever the hash is not the smallest one. */
  lemma SearchAgreesAboveFirst(hashes: seq<Hash>, l: seq<u32>, hash: Hash, below: u32, from: u32, count: u32)
    requires IsLookup(hashes, l) && 0 < count as int == |hashes|
    requires hashes[l[0]] != hash
    ensures SearchResult(hashes, l, hash, below, from, count) == LinearScan(hashes, hash, below, from, 0)
  {
    SearchAgrees(hashes, l, hash, below, from, count);
  }

  /** Three equal chunks: the search returns chunk 1 although chunk 0 matches as well. */
  lemma SearchMissesFirst(hash: Hash)
    ensures var hashes: seq<Hash>, l: seq<u32> := [hash, hash, hash], [0, 1, 2];
            && IsLookup(hashes, l)
            && SearchResult(hashes, l, hash, 0, MAX_U32, 3) == Some(1)
            && LinearScan(hashes, hash, 0, MAX_U32, 0) == Some(0)
  {
    var hashes: seq<Hash>, l: seq<u32> := [hash, hash, hash], [0, 1, 2];
    assert l[0] == 0 && l[1] == 1 && l[2] == 2;
    assert Bisect(hashes, l, hash, 0, 2) == Some(1);
    assert RunStart(hashes, l, hash, 0) == 0;
    assert RunStart(hashes, l, hash, 1) == 0;
  }

  // ---- reusing an index for a shorter file -------------------------------------------

  function Below(l: seq<u32>, n: u32): (r: seq<u32>)
    ensures forall c :: c in r <==> c in l && c < n
  {
    if l == [] then []
    else
      assert forall c :: c in l <==> c == l[0] || c in l[1..];
      (if l[0] < n then [l[0]] else []) + Below(l[1..], n)
  }

  lemma {:induction false} BelowSorted(hashes: seq<Hash>, l: seq<u32>, n: u32)
    requires InRange(hashes, l) && Sorted(hashes, l) && n as int <= |hashes|
    ensures InRange(hashes[..n], Below(l, n)) && Sorted(hashes[..n], Below(l, n))
  {
    var r := Below(l, n);
    forall i | 0 <= i < |r|
      ensures r[i] < n
    {
      assert r[i] in r;
    }
    if l != [] {
      BelowSorted(hashes, l[1..], n);
      var t := Below(l[1..], n);
      if l[0] < n {
        forall j | 0 <= j < |t|
          ensures Before(hashes[..n], l[0], t[j])
        {
          assert t[j] in t;
          var k :| 0 <= k < |l[1..]| && l[1..][k] == t[j];
          assert Before(hashes, l[0], l[k + 1]);
        }
      }
    }
  }

  /** The lookup table of the first n hashes is the original one without the entries from n on. */
  lemma ReusedLookup(hashes: seq<Hash>, l: seq<u32>, n: u32, l': seq<u32>)
    requires IsLookup(hashes, l) && n as int <= |hashes| && IsLookup(hashes[..n], l')
    ensures l' == Below(l, n)
  {
    BelowSorted(hashes, l, n);
    forall c
      ensures c in l' <==> c in Below(l, n)
    {
      if c in l' {
        var i :| 0 <= i < |l'| && l'[i] == c;
      }
    }
    SortedUnique(hashes[..n], l', Below(l, n));
  }

  /** With the whole window there is a hit exactly if one of the first entries has the hash. */
  lemma HitIff(hashes: seq<Hash>, l: seq<u32>, hash: Hash, count: u32)
    requires IsLookup(hashes, l) && 0 < count && count as int <= |hashes| < 0x1_0000_0000
    ensures SearchResult(hashes, l, hash, 0, MAX_U32, count).Some? <==>
              exists j: u32 :: j < count && hashes[l[j]] == hash
    ensures forall j: u32 :: j as int < |l| ==> InWindow(l[j], 0, MAX_U32)
  {
    if j: u32 :| j < count && hashes[l[j]] == hash {
      BisectComplete(hashes, l, hash, 0, count - 1, j);
      var m := Bisect(hashes, l, hash, 0, count - 1).value;
      assert hashes[l[ScanStart(hashes, l, hash, m)]] == hash;
    }
  }

  /**
   Every hit in the reused index, in whatever window, is a hit in the original with all of
   its window, exactly unless the original has more hashes than chunks and cuts it off.
   */
  lemma ReusedHitIsOriginalHitIff(hashes: seq<Hash>, l: seq<u32>, count: u32, n: u32, l': seq<u32>, hash: Hash,
                                  below: u32, from: u32)
    requires IsLookup(hashes, l) && 0 < n <= count && count as int <= |hashes| < 0x1_0000_0000
               && IsLookup(hashes[..n], l')
    requires SearchResult(hashes[..n], l', hash, below, from, n).Some?
    ensures SearchResult(hashes, l, hash, 0, MAX_U32, count).Some? <==> !CutOff(hashes, l, hash, 0, MAX_U32, count)
  {
    var c := SearchResult(hashes[..n], l', hash, below, from, n).value;
    assert hashes[c] == hash && c in l;
    var k: int :| 0 <= k < |l| && l[k] == c;
    assert hashes[l[k as u32]] == hash && InWindow(l[k as u32], 0, MAX_U32);
    HitIff(hashes, l, hash, count);
  }

  /** An original that is not longer than its data cuts nothing off. */
  lemma ReusedHitIsOriginalHit(hashes: seq<Hash>, l: seq<u32>, n: u32, l': seq<u32>, hash: Hash, below: u32, from: u32)
    requires IsLookup(hashes, l) && 0 < n && n as int <= |hashes| < 0x1_0000_0000 && IsLookup(hashes[..n], l')
    requires SearchResult(hashes[..n], l', hash, below, from, n).Some?
    ensures SearchResult(hashes, l, hash, 0, MAX_U32, |hashes| as u32).Some?
  {
    ReusedHitIsOriginalHitIff(hashes, l, |hashes| as u32, n, l', hash, below, from);
  }

  // ---- the index itself --------------------------------------------------------------

  datatype Failure = NotFound | WrongSize | Modified | Invalid

  datatype Outcome = Read(chunk: Chunk) | Failed(why: Failure)

  /** Number of 4096 byte chunks of a file, 0 for sizes that are refused. */
  function ChunkCount(size: nat): (count: u32)
    ensures count > 0 ==> size == count as int * 4096
    ensures count == 0 <==> size == 0 || size % 4096 != 0 || size / 4096 > MAX_U32 as int
  {
    if size == 0 then 0
    else if size / 4096 > MAX_U32 as int then 0
    else if size % 4096 != 0 then 0
    else (size / 4096) as u32
  }

  /** The buffer for the hashes, and where in it each hash is stored; both are computed in 32 bits. */
  function BufferSize(count: u32): int { count as int * 32 % 0x1_0000_0000 }

  function Offset(i: u32): int { i as int * 32 % 0x1_0000_0000 }

  /** Multiples of 2^27 wrap around. */
  lemma OffsetWraps(i: u32)
    ensures Offset(i) == 32 * (i as int % 0x800_0000)
  {
  }

  /**
   Hashing a file puts every hash into its own place of the buffer exactly for less than 2^27
   chunks; from then on the size wraps around, and some hash does not fit. A file of 2^27
   chunks is accepted, and its buffer is empty.
   */
  lemma HashesFitIff(count: u32)
    ensures (forall i: u32 :: i < count ==> Offset(i) == i as int * 32 && Offset(i) + 32 <= BufferSize(count)) <==>
            count < 0x800_0000
    ensures ChunkCount(0x80_0000_0000) == 0x800_0000 && BufferSize(0x800_0000) == 0
  {
    if count < 0x800_0000 {
      forall i: u32 | i < count ensures Offset(i) == i as int * 32 && Offset(i) + 32 <= BufferSize(count) {
        assert i as int + 1 <= count as int;
      }
    } else {
      var i := count % 0x800_0000;
      WrapsAround(count as int / 0x800_0000, i as int);
      assert i < count && Offset(i) + 32 > BufferSize(count);
    }
  }

  lemma WrapsAround(q: int, r: int)
    requires 0 <= r < 0x800_0000
    ensures (q * 0x800_0000 + r) * 32 % 0x1_0000_0000 == r * 32
  {
    assert (q * 0x800_0000 + r) * 32 == q * 0x1_0000_0000 + r * 32;
  }

  lemma ShiftedIs(l: seq<u32>, front: seq<u32>, j: nat, c: u32)
    requires |l| == |front| + 1 && j <= |front| && l[j] == c
    requires forall k :: 0 <= k < j ==> l[k] == front[k]
    requires forall k :: j < k <= |front| ==> l[k] == front[k - 1]
    ensures l == front[..j] + [c] + front[j..]
  {
  }

  /** Insertion of the next chunk number into the sorted front of the table. */
  method InsertNext(hashes: seq<Hash>, lookup: array<u32>, n: nat)
    requires n < lookup.Length == |hashes| < 0x1_0000_0000
    requires IsLookup(hashes[..n], lookup[..n])
    requires forall k :: n <= k < lookup.Length ==> lookup[k] as int == k
    modifies lookup
    ensures IsLookup(hashes[..n + 1], lookup[..n + 1])
    ensures forall k :: n < k < lookup.Length ==> lookup[k] as int == k
  {
    var c := lookup[n];
    ghost var front := lookup[..n];
    var j := n;
    while j > 0 && Before(hashes, c, lookup[j - 1])
      invariant 0 <= j <= n
      invariant forall k :: 0 <= k < j ==> lookup[k] == front[k]
      invariant forall k :: j < k <= n ==> lookup[k] == front[k - 1]
      invariant forall k :: j <= k < n ==> front[k] as int < n && Before(hashes, c, front[k])
      invariant forall k :: n < k < lookup.Length ==> lookup[k] as int == k
    {
      lookup[j] := lookup[j - 1];
      j := j - 1;
    }
    lookup[j] := c;
    ShiftedIs(lookup[..n + 1], front, j, c);
    InsertedIsLookup(hashes, front, n, j);
  }

  lemma InsertedIsLookup(hashes: seq<Hash>, front: seq<u32>, n: nat, j: nat)
    requires n < |hashes| < 0x1_0000_0000 && j <= n
    requires IsLookup(hashes[..n], front)
    requires forall k :: j <= k < n ==> Before(hashes, n as u32, front[k])
    requires j > 0 ==> !Before(hashes, n as u32, front[j - 1])
    ensures IsLookup(hashes[..n + 1], front[..j] + [n as u32] + front[j..])
  {
    var c := n as u32;
    assert forall k :: 0 <= k < n ==> front[k] != c;
    assert forall a, b :: 0 <= a < b < n ==> Before(hashes[..n], front[a], front[b]);
    if j > 0 {
      BeforeTotal(hashes, front[j - 1], c);
    }
    forall k | 0 <= k < j
      ensures Before(hashes, front[k], c)
    {
      if k < j - 1 {
        BeforeTransitive(hashes, front[k], front[j - 1], c);
      }
    }
    InsertedIsSorted(hashes[..n + 1], front, c, j, front[..j] + [c] + front[j..]);
    InsertedIsComplete(front, c, j, front[..j] + [c] + front[j..]);
  }

  lemma InsertedIsSorted(hashes: seq<Hash>, front: seq<u32>, c: u32, j: nat, l: seq<u32>)
    requires j <= |front| && InRange(hashes, front) && Sorted(hashes, front) && c as int < |hashes|
    requires forall k :: 0 <= k < j ==> Before(hashes, front[k], c)
    requires forall k :: j <= k < |front| ==> Before(hashes, c, front[k])
    requires l == front[..j] + [c] + front[j..]
    ensures InRange(hashes, l) && Sorted(hashes, l)
  {
    forall k | 0 <= k < |l|
      ensures l[k] == if k < j then front[k] else if k == j then c else front[k - 1]
    {
    }
  }

  lemma InsertedIsComplete(front: seq<u32>, n: u32, j: nat, l: seq<u32>)
    requires j <= |front| && n < MAX_U32
    requires forall c: u32 :: c < n ==> c in front
    requires l == front[..j] + [n] + front[j..]
    ensures forall c: u32 :: c < n + 1 ==> c in l
  {
    assert l[j] == n;
    forall c: u32 | c < n
      ensures c in l
    {
      assert c in front;
      var k :| 0 <= k < |front| && front[k] == c;
      assert l[if k < j then k else k + 1] == c;
    }
  }

  /** Numbers all chunks and sorts the numbers by hash. */
  method BuildLookup(hashes: seq<Hash>) returns (lookup: array<u32>)
    requires |hashes| < 0x1_0000_0000
    ensures fresh(lookup) && IsLookup(hashes, lookup[..])
  {
    var count := |hashes|;
    lookup := new u32[count];
    for i := 0 to count
      invariant forall k :: 0 <= k < i ==> lookup[k] as int == k
    {
      lookup[i] := i as u32;
    }
    for n := 0 to count
      invariant IsLookup(hashes[..n], lookup[..n])
      invariant forall k :: n <= k < count ==> lookup[k] as int == k
    {
      InsertNext(hashes, lookup, n);
    }
    assert hashes[..count] == hashes && lookup[..count] == lookup[..];
  }

  /** The bisection loop: in 32-bit numbers, ending at zero without wrapping. */
  method Locate(hashes: seq<Hash>, lookup: array<u32>, count: u32, hash: Hash) returns (r: Option<u32>)
    requires InRange(hashes, lookup[..]) && 0 < count && count as int <= lookup.Length
    ensures r == Bisect(hashes, lookup[..], hash, 0, count - 1)
  {
    var left: u32, right: u32, middle: u32 := 0, count - 1, 0;
    while left <= right
      invariant right < count
      invariant Bisect(hashes, lookup[..], hash, 0, count - 1) == Bisect(hashes, lookup[..], hash, left, right)
      decreases right as int - left as int
    {
      BisectStep(hashes, lookup[..], hash, left, right);
      middle := left + (right - left) / 2;
      var cmp := Memcmp(hashes[lookup[middle]], hash);
      if cmp == 0 {
        return Some(middle);
      } else if cmp < 0 {
        left := middle + 1;
      } else if middle > 0 {
        right := middle - 1;
      } else {
        break;
      }
    }
    return None;
  }

  class RaucHashIndex {
    const data: seq<Chunk>
    const sha256: Chunk -> Hash
    const skipHashCheck: bool
    var count: u32
    var hashes: seq<Hash>
    var lookup: array<u32>
    var invalidBelow: u32
    var invalidFrom: u32

    /** The table covers the whole hash list, which may be longer than the indexed data. */
    ghost predicate Valid()
      reads this, lookup
    {
      && |hashes| < 0x1_0000_0000 && count as int <= |hashes| && count as int <= |data|
      && IsLookup(hashes, lookup[..])
    }

    /**
     Indexes the chunks of a file, from an index file with the given hashes or by hashing
     them; a shorter index file limits the index, a longer one is taken as it is.
     */
    constructor (data: seq<Chunk>, sha256: Chunk -> Hash, skipHashCheck: bool, indexFile: Option<seq<Hash>>)
      requires 0 < |data| <= MAX_U32 as int
      requires indexFile.Some? ==> |indexFile.value| < 0x1_0000_0000
      ensures Valid() && fresh(lookup)
      ensures this.data == data && this.sha256 == sha256 && this.skipHashCheck == skipHashCheck
      ensures invalidBelow == 0 && invalidFrom == MAX_U32
      ensures indexFile.Some? ==> hashes == indexFile.value
      ensures indexFile.Some? ==> count as int == if |indexFile.value| < |data| then |indexFile.value| else |data|
      ensures indexFile.None? ==> count as int == |data| == |hashes|
      ensures indexFile.None? ==> forall i :: 0 <= i < |data| ==> hashes[i] == sha256(data[i])
    {
      this.data, this.sha256, this.skipHashCheck := data, sha256, skipHashCheck;
      var n := |data| as u32;
      var hs: seq<Hash> := [];
      if indexFile.Some? {
        if |indexFile.value| < |data| {
          n := |indexFile.value| as u32;
        }
        hs := indexFile.value;
      } else {
        for i := 0 to |data|
          invariant |hs| == i && forall k :: 0 <= k < i ==> hs[k] == sha256(data[k])
        {
          hs := hs + [sha256(data[i])];
        }
      }
      count, hashes := n, hs;
      invalidBelow, invalidFrom := 0, MAX_U32;
      var table := BuildLookup(hs);
      lookup := table;
    }

    /** Indexes another file by the front part of an existing index. */
    constructor Reuse(idx: RaucHashIndex, newData: seq<Chunk>)
      requires idx.Valid() && 0 < |newData| <= MAX_U32 as int
      ensures Valid() && fresh(lookup)
      ensures data == newData && count as int == if |newData| > idx.count as int then idx.count as int else |newData|
      ensures hashes == idx.hashes[..count]
      ensures lookup[..] == Below(idx.lookup[..], count)
      ensures invalidBelow == 0 && invalidFrom == MAX_U32
    {
      data, sha256, skipHashCheck := newData, idx.sha256, false;
      var n := |newData| as u32;
      if n > idx.count {
        n := idx.count;
      }
      count, hashes := n, idx.hashes[..n];
      invalidBelow, invalidFrom := 0, MAX_U32;
      var table := BuildLookup(idx.hashes[..n]);
      lookup := table;
      new;
      ReusedLookup(idx.hashes, idx.lookup[..], n, table[..]);
    }

    /** Walks back over equal hashes; a walk that reaches the first entry changes nothing. */
    method WalkBack(hash: Hash, hit: u32) returns (middle: u32)
      requires Valid() && hit as int < |hashes| && hashes[lookup[hit]] == hash
      ensures middle == ScanStart(hashes, lookup[..], hash, hit)
    {
      middle := hit;
      var i := hit;
      while i > 0
        invariant i <= hit
        invariant hashes[lookup[i]] == hash
        invariant RunStart(hashes, lookup[..], hash, hit) == RunStart(hashes, lookup[..], hash, i)
      {
        var next := lookup[i - 1];
        if Memcmp(hashes[next], hash) != 0 {
          middle := i;
          return;
        }
        i := i - 1;
      }
    }

    /** Walks forward over equal hashes to the first entry of the validity window. */
    method WalkForward(hash: Hash, middle: u32) returns (r: Option<u32>)
      requires Valid() && middle <= count
      ensures r == ForwardScan(hashes, lookup[..], hash, invalidBelow, invalidFrom, count, middle)
    {
      ghost var l := lookup[..];
      var i := middle;
      while i < count
        invariant middle <= i <= count
        invariant ForwardScan(hashes, l, hash, invalidBelow, invalidFrom, count, middle) ==
                  ForwardScan(hashes, l, hash, invalidBelow, invalidFrom, count, i)
      {
        var curr := lookup[i];
        if Memcmp(hashes[curr], hash) != 0 {
          return None;
        }
        if curr >= invalidFrom {
          return None;
        } else if curr < invalidBelow {
          if i < count - 1 {
            i := i + 1;
            continue;
          } else {
            return None;
          }
        } else {
          return Some(i);
        }
      }
      return None;
    }

    /** Search result in the table, from the binary search to the validity window. */
    method Find(hash: Hash) returns (r: Option<u32>)
      requires Valid() && count > 0
      ensures r == SearchResult(hashes, lookup[..], hash, invalidBelow, invalidFrom, count)
    {
      var hit := Locate(hashes, lookup, count, hash);
      if hit.None? {
        return None;
      }
      var middle := WalkBack(hash, hit.value);
      var first := WalkForward(hash, middle);
      if first.None? {
        return None;
      }
      return Some(lookup[first.value]);
    }

    /** Reads the chunk with this hash; a chunk that was found is read from its own place and checked. */
    method GetChunk(hash: Hash) returns (r: Outcome)
      requires Valid()
      ensures count == 0 ==> r == Failed(Invalid)
      ensures count > 0 ==>
                match SearchResult(hashes, lookup[..], hash, invalidBelow, invalidFrom, count)
                case None => r == Failed(NotFound)
                case Some(c) =>
                  r == if c as int >= |data| then Failed(WrongSize)
                       else if !skipHashCheck && sha256(data[c]) != hash then Failed(Modified)
                       else Read(data[c])
      ensures r.Read? && !skipHashCheck ==> sha256(r.chunk) == hash
    {
      if count == 0 {
        return Failed(Invalid);
      }
      var found := Find(hash);
      if found.None? {
        return Failed(NotFound);
      }
      var c := found.value;
      if c as int >= |data| {
        return Failed(WrongSize);
      }
      var chunk := data[c];
      if !skipHashCheck {
        if Memcmp(sha256(chunk), hash) != 0 {
          return Failed(Modified);
        }
      }
      return Read(chunk);
    }
  }
}
