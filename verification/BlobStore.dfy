/**
 Blob slots in the W25Q (blob_store.c): erase, program, hash back, header, commit.

 A failing flash command returns at once and nothing else is written, so the flash a power cut leaves at any point is
 a flash some failing command leaves: the contracts below, which let every command fail with any partial effect, are
 about both.
 */
module BlobStore {
  import opened Bits
  import opened NorFlash

  // ---- slots ----

  const SLOTS := 7
  const LISTED := 3            // gw0, gw1, esp: always there; the others need the room
  const BOOT_AREA := 0x100000  // what the iCE40 boots from

  // gw0, gw1, esp, fw, ca, proxy, bridge
  function Base(id: nat): nat
    requires id < SLOTS
  {
    [0x100000, 0x140000, 0x200000, 0x600000, 0x180000, 0x190000, 0x700000][id]
  }

  function Size(id: nat): nat
    requires id < SLOTS
  {
    [0x040000, 0x040000, 0x400000, 0x100000, 0x010000, 0x002000, 0x100000][id]
  }

  function End(id: nat): nat
    requires id < SLOTS
  {
    Base(id) + Size(id)
  }

  const HDR_SIZE := 0x1000
  const HDR_BYTES := 64
  const HDR_MAGIC := 0x4C425042
  const HDR_VERSION := 1
  const COMMIT_OFF := 0x80
  const COMMIT_MAGIC := 0x544D4F43
  const EXTRA_OFF := 0x100
  const EXTRA_MAX := 0x100

  function Capacity(id: nat): nat
    requires id < SLOTS
  {
    Size(id) - HDR_SIZE
  }

  /** No two slots share a byte, none touches the boot area, and each is made of whole sectors. */
  lemma SlotsDisjoint(i: nat, j: nat)
    requires i < SLOTS && j < SLOTS
    ensures i != j ==> End(i) <= Base(j) || End(j) <= Base(i)
    ensures BOOT_AREA <= Base(i) && End(i) <= 0x800000 && (i < LISTED ==> End(i) <= 0x600000)
    ensures Base(i) % SECTOR == 0 && Size(i) % SECTOR == 0 && Size(i) > HDR_SIZE
  {
  }

  // ---- headers ----

  datatype Info = Info(present: bool, len: nat, version: nat, sha: seq<byte>)

  function Zeros(n: nat): (s: seq<byte>)
    ensures |s| == n
  {
    seq(n, _ => 0)
  }

  const EMPTY := Info(false, 0, 0, Zeros(32))

  function Le16(x: nat): (s: seq<byte>)
    requires x < 65536
    ensures |s| == 2
  {
    [x % 256, x / 256]
  }

  function FromLe16(s: seq<byte>): nat
    requires |s| == 2
  {
    Word16(s[0], s[1])
  }

  function Header(id: nat, len: nat, version: nat, sha: seq<byte>): (h: seq<byte>)
    requires id < SLOTS && len < 0x1_0000_0000 && version < 0x1_0000_0000 && |sha| == 32
    ensures |h| == HDR_BYTES
  {
    Le32(HDR_MAGIC) + Le16(HDR_VERSION) + Le16(id) + Le32(len) + Le32(version) + sha + Zeros(16)
  }

  // What a header and a commit word say (load_slot).
  function Parse(id: nat, h: seq<byte>, commit: seq<byte>): Info
    requires id < SLOTS && |h| == HDR_BYTES && |commit| == 4
  {
    var len := FromLe32(h[8..12]);
    if FromLe32(h[0..4]) != HDR_MAGIC || FromLe16(h[4..6]) != HDR_VERSION || FromLe16(h[6..8]) != id
       || FromLe32(commit) != COMMIT_MAGIC || len == 0 || len > Capacity(id) then EMPTY
    else Info(true, len, FromLe32(h[12..16]), h[16..48])
  }

  // What a slot holds, as the next boot reads it.
  function Slot(f: seq<byte>, id: nat): Info
    requires id < SLOTS && End(id) <= |f|
  {
    Parse(id, f[Base(id)..Base(id) + HDR_BYTES], f[Base(id) + COMMIT_OFF..Base(id) + COMMIT_OFF + 4])
  }

  lemma HeaderFields(id: nat, len: nat, version: nat, sha: seq<byte>)
    requires id < SLOTS && len < 0x1_0000_0000 && version < 0x1_0000_0000 && |sha| == 32
    ensures var h := Header(id, len, version, sha);
            && h[0..4] == Le32(HDR_MAGIC) && h[4..6] == Le16(HDR_VERSION) && h[6..8] == Le16(id)
            && h[8..12] == Le32(len) && h[12..16] == Le32(version) && h[16..48] == sha
  {
    hide Le32, Le16, Zeros;
    Concat7(Le32(HDR_MAGIC), Le16(HDR_VERSION), Le16(id), Le32(len), Le32(version), sha, Zeros(16));
  }

  lemma Concat7(a: seq<byte>, b: seq<byte>, c: seq<byte>, d: seq<byte>, e: seq<byte>, f: seq<byte>, g: seq<byte>)
    requires |a| == 4 && |b| == 2 && |c| == 2 && |d| == 4 && |e| == 4 && |f| == 32 && |g| == 16
    ensures var h := a + b + c + d + e + f + g;
            h[0..4] == a && h[4..6] == b && h[6..8] == c && h[8..12] == d && h[12..16] == e && h[16..48] == f
  {
  }

  lemma ParseOfHeader(id: nat, len: nat, version: nat, sha: seq<byte>, commit: seq<byte>)
    requires id < SLOTS && 0 < len <= Capacity(id) && version < 0x1_0000_0000 && |sha| == 32 && |commit| == 4
    ensures Parse(id, Header(id, len, version, sha), commit)
         == if FromLe32(commit) == COMMIT_MAGIC then Info(true, len, version, sha) else EMPTY
  {
    HeaderFields(id, len, version, sha);
    Le32RoundTrip(HDR_MAGIC);
    Le32RoundTrip(len);
    Le32RoundTrip(version);
    assert FromLe16(Le16(HDR_VERSION)) == HDR_VERSION && FromLe16(Le16(id)) == id;
    hide Header, Le32, FromLe32, Le16, FromLe16, Zeros;
  }

  // A header that a write leaves, up to its padding.
  ghost predicate Written(id: nat, h: seq<byte>, i: Info)
    requires id < SLOTS && |h| == HDR_BYTES
  {
    && 0 < i.len <= Capacity(id) && i.version < U32 && |i.sha| == 32
    && h[..48] == Header(id, i.len, i.version, i.sha)[..48]
  }

  /** A slot reads as present exactly when it holds the header of a write to that very slot and the commit word. */
  lemma PresentWhen(id: nat, h: seq<byte>, commit: seq<byte>)
    requires id < SLOTS && |h| == HDR_BYTES && |commit| == 4
    ensures Parse(id, h, commit).present ==> Written(id, h, Parse(id, h, commit)) && commit == Le32(COMMIT_MAGIC)
    ensures forall i: Info :: Written(id, h, i) && commit == Le32(COMMIT_MAGIC) ==>
        Parse(id, h, commit) == Info(true, i.len, i.version, i.sha)
  {
    var p := Parse(id, h, commit);
    if p.present {
      FromLe32RoundTrip(h[0..4]);
      FromLe16RoundTrip(h[4..6]);
      FromLe16RoundTrip(h[6..8]);
      FromLe32RoundTrip(h[8..12]);
      FromLe32RoundTrip(h[12..16]);
      FromLe32RoundTrip(commit);
      HeaderFields(id, p.len, p.version, p.sha);
      SixParts(h, Header(id, p.len, p.version, p.sha));
    }
    forall i: Info | Written(id, h, i) && commit == Le32(COMMIT_MAGIC)
      ensures Parse(id, h, commit) == Info(true, i.len, i.version, i.sha)
    {
      var w := Header(id, i.len, i.version, i.sha);
      Le32RoundTrip(COMMIT_MAGIC);
      ParseOfHeader(id, i.len, i.version, i.sha, commit);
      SamePrefix(h, w);
      hide Header;
      assert Parse(id, h, commit) == Parse(id, w, commit);
    }
  }

  /** In bytes: "BPBL", version 1 and the slot's number at its start, "COMT" at 0x80. */
  lemma SlotBytes(f: seq<byte>, id: nat)
    requires id < SLOTS && End(id) <= |f| && Slot(f, id).present
    ensures var b := Base(id);
            && f[b..b + 4] == [0x42, 0x50, 0x42, 0x4C] && f[b + 4..b + 6] == [1, 0] && f[b + 6..b + 8] == [id, 0]
            && f[b + 0x80..b + 0x84] == [0x43, 0x4F, 0x4D, 0x54]
  {
    hide Parse, FromLe32;
    var b := Base(id);
    var h, c := f[b..b + HDR_BYTES], f[b + COMMIT_OFF..b + COMMIT_OFF + 4];
    HeaderBytes(id, h, c);
    SubSlice(f, b, b + HDR_BYTES, 0, 4);
    SubSlice(f, b, b + HDR_BYTES, 4, 6);
    SubSlice(f, b, b + HDR_BYTES, 6, 8);
  }

  lemma HeaderBytes(id: nat, h: seq<byte>, commit: seq<byte>)
    requires id < SLOTS && |h| == HDR_BYTES && |commit| == 4 && Parse(id, h, commit).present
    ensures h[0..4] == [0x42, 0x50, 0x42, 0x4C] && h[4..6] == [1, 0] && h[6..8] == [id, 0]
    ensures commit == [0x43, 0x4F, 0x4D, 0x54]
  {
    MagicBytes(id);
    FromLe32RoundTrip(h[0..4]);
    FromLe16RoundTrip(h[4..6]);
    FromLe16RoundTrip(h[6..8]);
    FromLe32RoundTrip(commit);
    hide FromLe32, FromLe16, Le32, Le16;
  }

  lemma MagicBytes(id: nat)
    requires id < SLOTS
    ensures Le32(HDR_MAGIC) == [0x42, 0x50, 0x42, 0x4C] && Le32(COMMIT_MAGIC) == [0x43, 0x4F, 0x4D, 0x54]
    ensures Le16(HDR_VERSION) == [1, 0] && Le16(id) == [id, 0]
  {
  }

  lemma SubSlice(f: seq<byte>, a: nat, b: nat, c: nat, d: nat)
    requires a <= b <= |f| && c <= d <= b - a
    ensures f[a..b][c..d] == f[a + c..a + d]
  {
    forall i | 0 <= i < d - c
      ensures f[a..b][c..d][i] == f[a + c..a + d][i]
    {
      assert f[a..b][c + i] == f[a + (c + i)];
    }
  }

  lemma FromLe16RoundTrip(s: seq<byte>)
    requires |s| == 2
    ensures FromLe16(s) < 65536 && Le16(FromLe16(s)) == s
  {
  }

  lemma SixParts(a: seq<byte>, b: seq<byte>)
    requires |a| == |b| == HDR_BYTES && a[0..4] == b[0..4] && a[4..6] == b[4..6] && a[6..8] == b[6..8]
    requires a[8..12] == b[8..12] && a[12..16] == b[12..16] && a[16..48] == b[16..48]
    ensures a[..48] == b[..48]
  {
    assert forall s: seq<byte> | |s| == HDR_BYTES ::
        s[..48] == s[0..4] + s[4..6] + s[6..8] + s[8..12] + s[12..16] + s[16..48];
  }

  lemma SamePrefix(a: seq<byte>, b: seq<byte>)
    requires |a| == |b| == HDR_BYTES && a[..48] == b[..48]
    ensures a[0..4] == b[0..4] && a[4..6] == b[4..6] && a[6..8] == b[6..8]
    ensures a[8..12] == b[8..12] && a[12..16] == b[12..16] && a[16..48] == b[16..48]
  {
    assert forall i :: 0 <= i < 48 ==> a[i] == a[..48][i] == b[..48][i] == b[i];
  }

  // An erased header start reads as empty, and so does a header whose commit word is still erased.
  lemma BlankIsEmpty(f: seq<byte>, id: nat)
    requires id < SLOTS && End(id) <= |f|
    requires IsBlank(f, Base(id), Base(id) + 4) || IsBlank(f, Base(id) + COMMIT_OFF, Base(id) + COMMIT_OFF + 4)
    ensures Slot(f, id) == EMPTY
  {
    var b := Base(id);
    if IsBlank(f, b, b + 4) {
      assert f[b..b + HDR_BYTES][0..4] == [f[b], f[b + 1], f[b + 2], f[b + 3]];
    } else {
      assert f[b + COMMIT_OFF..b + COMMIT_OFF + 4]
          == [f[b + COMMIT_OFF], f[b + COMMIT_OFF + 1], f[b + COMMIT_OFF + 2], f[b + COMMIT_OFF + 3]];
    }
  }

  // A slot depends on its own bytes alone.
  lemma SlotIsLocal(f: seq<byte>, g: seq<byte>, id: nat, lo: nat, hi: nat)
    requires id < SLOTS && End(id) <= |f| && SameOutside(f, g, lo, hi) && (hi <= Base(id) || End(id) <= lo)
    ensures Slot(g, id) == Slot(f, id)
  {
    assert f[Base(id)..Base(id) + HDR_BYTES] == g[Base(id)..Base(id) + HDR_BYTES];
    var c := Base(id) + COMMIT_OFF;
    assert f[c..c + 4] == g[c..c + 4];
  }

  // ---- what a write may leave ----

  datatype Blob = Blob(len: nat, version: nat, sha: seq<byte>, extra: seq<byte>)

  // The complete new slot: header and commit, data that hashes to what the header says, and the extra bytes.
  ghost predicate Holds(f: seq<byte>, id: nat, b: Blob, hash: seq<byte> -> seq<byte>)
    requires id < SLOTS && End(id) <= |f| && b.len <= Capacity(id) && |b.extra| <= EXTRA_MAX
  {
    && Slot(f, id) == Info(true, b.len, b.version, b.sha)
    && hash(f[Base(id) + HDR_SIZE..Base(id) + HDR_SIZE + b.len]) == b.sha
    && f[Base(id) + EXTRA_OFF..Base(id) + EXTRA_OFF + |b.extra|] == b.extra
  }

  /** Old slot untouched, empty slot, or the complete new one; and not a byte outside the slot. */
  ghost predicate Atomic(f: seq<byte>, g: seq<byte>, id: nat, b: Blob, hash: seq<byte> -> seq<byte>)
    requires id < SLOTS && b.len <= Capacity(id) && |b.extra| <= EXTRA_MAX
  {
    && End(id) <= |f| && SameOutside(f, g, Base(id), End(id))
    && (g == f || Slot(g, id) == EMPTY || Holds(g, id, b, hash))
  }

  function Floor(x: nat): (r: nat)
    ensures r <= x < r + SECTOR && r % SECTOR == 0
  {
    x / SECTOR * SECTOR
  }

  function Ceil(x: nat): (r: nat)
    ensures x <= r < x + SECTOR && r % SECTOR == 0
  {
    (x + SECTOR - 1) / SECTOR * SECTOR
  }

  lemma WholeSectors(a: nat, end: nat)
    requires a % SECTOR == 0 && end % SECTOR == 0 && a < end
    ensures a + SECTOR <= end && (a + SECTOR) % SECTOR == 0 && (a + BLOCK) % SECTOR == 0
  {
    assert a == a / SECTOR * SECTOR && end == end / SECTOR * SECTOR;
    assert a + BLOCK == (a / SECTOR + 16) * SECTOR;
  }

  lemma CeilInside(x: nat, top: nat)
    requires x <= top && top % SECTOR == 0
    ensures Ceil(x) <= top
  {
  }

  lemma Widen(f: seq<byte>, g: seq<byte>, lo: nat, hi: nat, lo': nat, hi': nat)
    requires SameOutside(f, g, lo, hi) && lo' <= lo && hi <= hi' <= |f|
    ensures SameOutside(f, g, lo', hi')
  {
  }

  lemma Chain(f: seq<byte>, g: seq<byte>, h: seq<byte>, lo: nat, hi: nat)
    requires SameOutside(f, g, lo, hi) && SameOutside(g, h, lo, hi)
    ensures SameOutside(f, h, lo, hi)
  {
  }

  lemma StaysBlank(f: seq<byte>, g: seq<byte>, lo: nat, hi: nat, at: nat, to: nat)
    requires IsBlank(f, lo, hi) && SameOutside(f, g, at, to) && (hi <= at || to <= lo)
    ensures IsBlank(g, lo, hi)
  {
  }

  lemma ErasedIs(f: seq<byte>, lo: nat, hi: nat)
    requires lo <= hi <= |f|
    ensures SameOutside(f, Erased(f, lo, hi), lo, hi) && IsBlank(Erased(f, lo, hi), lo, hi)
  {
  }

  lemma ErasedGrows(f: seq<byte>, lo: nat, mid: nat, hi: nat)
    requires lo <= mid <= hi <= |f|
    ensures Erased(Erased(f, lo, mid), mid, hi) == Erased(f, lo, hi)
  {
  }

  lemma ErasedSlotIsEmpty(f: seq<byte>, g: seq<byte>, id: nat, upto: nat)
    requires id < SLOTS && End(id) <= |f| && Base(id) + SECTOR <= upto <= End(id) && g == Erased(f, Base(id), upto)
    ensures Slot(g, id) == EMPTY && SameOutside(f, g, Base(id), End(id))
  {
    ErasedIs(f, Base(id), upto);
    Widen(f, g, Base(id), upto, Base(id), End(id));
    assert IsBlank(g, Base(id), Base(id) + 4);
    BlankIsEmpty(g, id);
  }

  // With the header in place, the commit word alone decides.
  lemma CommitDecides(f: seq<byte>, g: seq<byte>, id: nat, b: Blob)
    requires id < SLOTS && End(id) <= |f| && SameOutside(f, g, Base(id) + COMMIT_OFF, Base(id) + COMMIT_OFF + 4)
    requires 0 < b.len <= Capacity(id) && b.version < 0x1_0000_0000 && |b.sha| == 32
    requires f[Base(id)..Base(id) + HDR_BYTES] == Header(id, b.len, b.version, b.sha)
    ensures Slot(g, id) == EMPTY || Slot(g, id) == Info(true, b.len, b.version, b.sha)
    ensures FromLe32(g[Base(id) + COMMIT_OFF..Base(id) + COMMIT_OFF + 4]) == COMMIT_MAGIC
       <==> Slot(g, id) == Info(true, b.len, b.version, b.sha)
  {
    hide Header, Parse;
    assert g[Base(id)..Base(id) + HDR_BYTES] == f[Base(id)..Base(id) + HDR_BYTES];
    ParseOfHeader(id, b.len, b.version, b.sha, g[Base(id) + COMMIT_OFF..Base(id) + COMMIT_OFF + 4]);
  }

  lemma ProgramOutside(f: seq<byte>, g: seq<byte>, at: nat, data: seq<byte>)
    requires at + |data| <= |f| && (g == Programmed(f, at, data) || Cut(f, g, at, data))
    ensures SameOutside(f, g, at, at + |data|) && |g| == |f|
  {
  }

  lemma SameSelf(f: seq<byte>, lo: nat, hi: nat)
    requires lo <= hi <= |f|
    ensures SameOutside(f, f, lo, hi)
  {
  }

  // The whole commit word is in.
  predicate CommitIn(f: seq<byte>, id: nat)
    requires id < SLOTS && End(id) <= |f|
  {
    f[Base(id) + COMMIT_OFF..Base(id) + COMMIT_OFF + 4] == Le32(COMMIT_MAGIC)
  }

  // What the caller hands in: the n bytes from offset off.
  type Source = (nat, nat) -> seq<byte>

  predicate Delivers(src: Source, len: nat) {
    forall off, n :: 0 <= off < len && 0 <= n <= PAGE ==> |src(off, n)| == n
  }

  // The bytes it hands over from `off` on, page by page.
  function Delivered(src: Source, off: nat, len: nat): (d: seq<byte>)
    requires off <= len && Delivers(src, len)
    ensures |d| == len - off
    decreases len - off
  {
    if off == len then []
    else
      var n := if len - off < PAGE then len - off else PAGE;
      src(off, n) + Delivered(src, off + n, len)
  }

  /** A source that reads pages out of some data delivers that data. */
  lemma {:induction false} DeliversData(src: Source, d: seq<byte>, off: nat)
    requires off <= |d| && Delivers(src, |d|)
    requires forall at, n :: 0 <= at < |d| && 0 <= n <= PAGE && at + n <= |d| ==> src(at, n) == d[at..at + n]
    ensures Delivered(src, off, |d|) == d[off..]
    decreases |d| - off
  {
    if off < |d| {
      var n := if |d| - off < PAGE then |d| - off else PAGE;
      DeliversData(src, d, off + n);
      assert d[off..] == d[off..off + n] + d[off + n..];
    }
  }

  // How the flash behaves: in any way at all, or in one of four ways that show what a write may come to.
  datatype World = Anything | Healthy | EraseDead | CommitLies | HeaderUnread

  // What a command is for; only the worlds above look at it.
  datatype Part = Data | Head | Commit

  // Bytes outside the written range are as they were, whole ranges at a time.
  lemma RangeKept(f: seq<byte>, g: seq<byte>, at: nat, to: nat, lo: nat, hi: nat)
    requires SameOutside(f, g, at, to) && lo <= hi <= |f| && (hi <= at || to <= lo)
    ensures g[lo..hi] == f[lo..hi]
  {
  }

  datatype Result = Refused | EraseFailed | ProgramFailed | HashFailed | ExtraFailed | HeaderFailed | CommitFailed
                  | NotReadBack | Stored

  // The cache never promises a slot the flash does not hold.
  ghost predicate CacheOk(info: seq<Info>, f: seq<byte>) {
    |f| >= 0x800000 && |info| == SLOTS && forall i :: 0 <= i < SLOTS && info[i].present ==> info[i] == Slot(f, i)
  }

  lemma CacheFollows(info: seq<Info>, f: seq<byte>, g: seq<byte>, id: nat, e: Info)
    requires CacheOk(info, f) && id < SLOTS && |g| == |f|
    requires forall i :: 0 <= i < SLOTS && i != id && End(i) <= |f| ==> Slot(g, i) == Slot(f, i)
    requires e == EMPTY || e == Slot(g, id)
    ensures CacheOk(info[id := e], g)
  {
    hide Slot;
  }

  lemma OnePage(src: Source, off: nat, n: nat, len: nat)
    requires off < len && n == (if len - off < PAGE then len - off else PAGE) && Delivers(src, len)
    ensures |src(off, n)| == n && Delivered(src, off, len) == src(off, n) + Delivered(src, off + n, len)
  {
  }

  // One more page of the data range programmed, or cut short.
  lemma PageIn(f0: seq<byte>, f: seq<byte>, g: seq<byte>, at: nat, off: nat, len: nat, page: seq<byte>, ok: bool)
    requires off + |page| <= len && at + len <= |f|
    requires SameOutside(f0, f, at, at + len) && IsBlank(f, at + off, at + len)
    requires if ok then g == Programmed(f, at + off, page) else Cut(f, g, at + off, page)
    ensures |g| == |f| && SameOutside(f0, g, at, at + len)
    ensures ok ==> IsBlank(g, at + off + |page|, at + len) && g[at..at + off + |page|] == f[at..at + off] + page
  {
    hide Programmed, Cut, SameOutside;
    var n := |page|;
    ProgramOutside(f, g, at + off, page);
    Widen(f, g, at + off, at + off + n, at, at + len);
    Chain(f0, f, g, at, at + len);
    if ok {
      ProgramBlank(f, at + off, page);
      StaysBlank(f, g, at + off + n, at + len, at + off, at + off + n);
      RangeKept(f, g, at + off, at + off + n, at, at + off);
      JoinSlices(g, at, at + off, at + off + n);
    }
  }

  lemma AllDelivered(src: Source, len: nat)
    requires Delivers(src, len)
    ensures Delivered(src, len, len) == []
  {
  }

  lemma InCache(info: seq<Info>, f: seq<byte>, id: nat)
    requires CacheOk(info, f)
    ensures |info| == SLOTS && (id < SLOTS && info[id].present ==> info[id] == Slot(f, id))
  {
  }

  lemma JoinSlices(f: seq<byte>, a: nat, b: nat, c: nat)
    requires a <= b <= c <= |f|
    ensures f[a..c] == f[a..b] + f[b..c]
  {
  }

  // When a write that failed leaves a blob in its slot.
  predicate LeftSomething(f: seq<byte>, g: seq<byte>, id: nat, r: Result)
    requires id < SLOTS && End(id) <= |f| && End(id) <= |g|
  {
    (r == EraseFailed && g == f && Slot(f, id) != EMPTY) || (r == CommitFailed && CommitIn(g, id)) || r == NotReadBack
  }

  // How a write of data that hashes to its digest ends in each of the worlds.
  predicate InWorld(w: World, r: Result) {
    match w
    case Anything => true
    case Healthy => r == Stored
    case EraseDead => r == EraseFailed
    case CommitLies => r == CommitFailed
    case HeaderUnread => r == NotReadBack
  }

  class Store {
    var flash: seq<byte>
    var info: seq<Info>
    var capacity: nat
    const hash: seq<byte> -> seq<byte>     // SHA-256
    const world: World

    ghost predicate Valid()
      reads this
    {
      |flash| in {0x800000, 0x1000000} && capacity in {0, |flash|} && CacheOk(info, flash)
    }

    // slot_ok
    predicate SlotOk(id: nat)
      reads this
    {
      id < SLOTS && (id < LISTED || End(id) <= capacity)
    }

    // ---- flash commands: each may fail ----

    method Read(at: nat, n: nat, part: Part) returns (ok: bool, data: seq<byte>)
      requires at + n <= |flash|
      ensures ok ==> data == flash[at..at + n]
      ensures world != Anything ==> (ok <==> !(world == HeaderUnread && part == Head))
    {
      ok, data := *, flash[at..at + n];
      if world != Anything { ok := !(world == HeaderUnread && part == Head); }
    }

    method EraseUnit(at: nat, n: nat) returns (ok: bool)
      requires (n == SECTOR && at % SECTOR == 0) || (n == BLOCK && at % BLOCK == 0)
      requires at + n <= |flash|
      modifies `flash
      ensures flash == old(flash) || flash == Erased(old(flash), at, at + n)
      ensures ok ==> flash == Erased(old(flash), at, at + n)
      ensures world != Anything ==> (ok <==> world != EraseDead)
      ensures world == EraseDead ==> flash == old(flash)
    {
      ok := *;
      var effective := *;
      if world != Anything { ok, effective := world != EraseDead, world != EraseDead; }
      if ok || effective { flash := Erased(flash, at, at + n); }
    }

    method Program(at: nat, data: seq<byte>, part: Part) returns (ok: bool)
      requires at + |data| <= |flash|
      modifies `flash
      ensures if ok then flash == Programmed(old(flash), at, data) else Cut(old(flash), flash, at, data)
      ensures world != Anything ==>
        flash == Programmed(old(flash), at, data) && (ok <==> !(world == CommitLies && part == Commit))
    {
      ok := *;
      CutEnds(flash, at, data);
      if world != Anything { ok := !(world == CommitLies && part == Commit); }
      if ok || world != Anything {
        flash := Programmed(flash, at, data);
      } else {
        var g :| Cut(flash, g, at, data);
        flash := g;
      }
    }

    // ---- the pieces of a write ----

    /** erase_range: exactly the 4 KB-rounded range, in 64 KB blocks where they fit; a failure leaves a prefix of it
        erased, cut at a unit's edge. */
    method EraseRange(addr: nat, len: nat) returns (ok: bool, ghost upto: nat)
      requires Ceil(addr + len) <= |flash|
      modifies `flash
      ensures Floor(addr) <= upto <= Ceil(addr + len) && upto % SECTOR == 0
      ensures flash == Erased(old(flash), Floor(addr), upto)
      ensures ok ==> upto == Ceil(addr + len)
      ensures world != Anything ==> (ok <==> world != EraseDead || Floor(addr) >= Ceil(addr + len))
      ensures world == EraseDead ==> flash == old(flash)
    {
      var end, a := Ceil(addr + len), Floor(addr);
      assert Erased(flash, a, a) == flash;
      hide Erased, Ceil, Floor;
      while a < end
        invariant Floor(addr) <= a <= end && a % SECTOR == 0 && |flash| == old(|flash|)
        invariant flash == Erased(old(flash), Floor(addr), a) &&
            (world == EraseDead ==> flash == old(flash) && a == Floor(addr))
      {
        var n := if a % BLOCK == 0 && end - a >= BLOCK then BLOCK else SECTOR;
        WholeSectors(a, end);
        ErasedGrows(old(flash), Floor(addr), a, a + n);
        ok := EraseUnit(a, n);
        if !ok {
          upto := if flash == Erased(old(flash), Floor(addr), a) then a else a + n;
          return;
        }
        a := a + n;
      }
      ok, upto := true, a;
    }

    // The data pages, from a source that may fail.
    method Fill(at: nat, len: nat, src: Source) returns (ok: bool)
      requires at + len <= |flash| && IsBlank(flash, at, at + len) && Delivers(src, len)
      modifies `flash
      ensures SameOutside(old(flash), flash, at, at + len)
      ensures ok ==> flash[at..at + len] == Delivered(src, 0, len)
      ensures world != Anything ==> ok
    {
      hide Programmed, Cut, SameOutside, IsBlank, Delivered, Delivers;
      var off := 0;
      ghost var written := [];
      SameSelf(flash, at, at + len);
      while off < len
        invariant 0 <= off <= len && |written| == off && |flash| == old(|flash|)
        invariant SameOutside(old(flash), flash, at, at + len) && IsBlank(flash, at + off, at + len)
        invariant flash[at..at + off] == written && written + Delivered(src, off, len) == Delivered(src, 0, len)
      {
        var n := if len - off < PAGE then len - off else PAGE;
        ok := *;
        ok := ok || world != Anything;
        if !ok { return; }
        OnePage(src, off, n, len);
        var page := src(off, n);
        ghost var was := flash;
        ok := Program(at + off, page, Data);
        PageIn(old(flash), was, flash, at, off, len, page, ok);
        if !ok { return; }
        Reassociate(written, page, Delivered(src, off + n, len));
        off, written := off + n, written + page;
      }
      AllDelivered(src, len);
      ok := true;
    }

    // hash_flash: page by page into the context.
    method HashFlash(at: nat, len: nat) returns (ok: bool, digest: seq<byte>)
      requires at + len <= |flash|
      ensures ok ==> digest == hash(flash[at..at + len])
      ensures world != Anything ==> ok
    {
      var off, fed := 0, [];
      digest := [];
      while off < len
        invariant 0 <= off <= len && fed == flash[at..at + off]
      {
        var n := if len - off < PAGE then len - off else PAGE;
        var page;
        ok, page := Read(at + off, n, Data);
        if !ok { return; }
        JoinSlices(flash, at, at + off, at + off + n);
        off, fed := off + n, fed + page;
      }
      ok, digest := true, hash(fed);
    }

    // Erase, program and hash back: on success the header sector is still blank and the data is in.
    method WriteData(id: nat, b: Blob, src: Source) returns (r: Result)
      requires id < SLOTS && End(id) <= |flash| && WellFormed(id, b) && Delivers(src, b.len)
      modifies `flash
      ensures Atomic(old(flash), flash, id, b, hash)
      ensures r == Stored ==> Ready(old(flash), flash, id, b, hash) && hash(Delivered(src, 0, b.len)) == b.sha
      ensures r in {Stored, EraseFailed, ProgramFailed, HashFailed}
      ensures r == EraseFailed ==> flash == old(flash) || Slot(flash, id) == EMPTY
      ensures r != EraseFailed ==> Slot(flash, id) == EMPTY
      ensures world == EraseDead ==> r == EraseFailed && flash == old(flash)
      ensures world !in {Anything, EraseDead} && hash(Delivered(src, 0, b.len)) == b.sha ==> r == Stored
    {
      hide Slot, Holds, Erased, SameOutside, IsBlank, Ceil, Floor, Delivered, Delivers;
      var base, data := Base(id), Base(id) + HDR_SIZE;
      SlotsDisjoint(id, id);
      SlotRoom(id, b.len);
      ghost var f0 := flash;
      var ok;
      ghost var upto;
      ok, upto := EraseRange(base, HDR_SIZE + b.len);
      AfterErase(f0, flash, id, b, hash, upto);
      if !ok { return EraseFailed; }
      ErasedIs(f0, base, upto);
      BlankPart(flash, base, upto, base, data);
      BlankPart(flash, base, upto, data, data + b.len);
      ghost var f1 := flash;
      ok := Fill(data, b.len, src);
      Widen(f1, flash, data, data + b.len, base, End(id));
      Chain(f0, f1, flash, base, End(id));
      StaysBlank(f1, flash, base, data, data, data + b.len);
      BlankPart(flash, base, data, base, base + 4);
      BlankIsEmpty(flash, id);
      if !ok { return ProgramFailed; }
      var digest;
      ok, digest := HashFlash(data, b.len);
      return if !ok || digest != b.sha then HashFailed else Stored;
    }

    // Extra bytes, header, commit word.
    method WriteHeader(id: nat, b: Blob, ghost f0: seq<byte>) returns (r: Result)
      requires id < SLOTS && End(id) <= |flash| && WellFormed(id, b) && Ready(f0, flash, id, b, hash)
      modifies `flash
      ensures Atomic(f0, flash, id, b, hash)
      ensures r in {Stored, ExtraFailed, HeaderFailed, CommitFailed}
      ensures r == Stored ==> Holds(flash, id, b, hash)
      ensures r in {ExtraFailed, HeaderFailed} ==> Slot(flash, id) == EMPTY
      ensures r == CommitFailed ==> (Slot(flash, id) != EMPTY <==> CommitIn(flash, id))
      ensures world != Anything ==> Holds(flash, id, b, hash)
      ensures world != Anything ==> r == if world == CommitLies then CommitFailed else Stored
    {
      hide Slot, SameOutside, IsBlank, Cut, Programmed, Header, Holds, Ready, Le32, Atomic, CommitIn, Annotated, Headed;
      var base := Base(id);
      ghost var f1 := flash;
      ReadyFacts(f0, flash, id, b, hash);
      var ok := true;
      if |b.extra| > 0 {
        ok := Program(base + EXTRA_OFF, b.extra, Head);
        AfterExtra(f0, f1, flash, id, b, hash, ok);
        if !ok { return ExtraFailed; }
      } else {
        NoExtra(f0, flash, id, b, hash);
      }
      r := WriteCommit(id, b, f0);
    }

    // Header and commit word.
    method WriteCommit(id: nat, b: Blob, ghost f0: seq<byte>) returns (r: Result)
      requires id < SLOTS && WellFormed(id, b) && Annotated(f0, flash, id, b, hash)
      modifies `flash
      ensures End(id) <= |flash| && Atomic(f0, flash, id, b, hash)
      ensures r in {Stored, HeaderFailed, CommitFailed}
      ensures r == Stored ==> Holds(flash, id, b, hash)
      ensures r == HeaderFailed ==> Slot(flash, id) == EMPTY
      ensures r == CommitFailed ==> (Slot(flash, id) != EMPTY <==> CommitIn(flash, id))
      ensures world != Anything ==> Holds(flash, id, b, hash)
      ensures world != Anything ==> r == if world == CommitLies then CommitFailed else Stored
    {
      hide Slot, SameOutside, IsBlank, Cut, Programmed, Header, Holds, Ready, Le32, Atomic, CommitIn, Headed;
      var base := Base(id);
      ghost var f2 := flash;
      var h := Header(id, b.len, b.version, b.sha);
      var ok := Program(base, h, Head);
      AfterHeader(f0, f2, flash, id, b, hash, h, ok);
      if !ok { return HeaderFailed; }
      ghost var f3 := flash;
      ok := Program(base + COMMIT_OFF, Le32(COMMIT_MAGIC), Commit);
      AfterCommit(f0, f3, flash, id, b, hash, world != Anything || ok);
      return if ok then Stored else CommitFailed;
    }

    // ---- the store ----

    // load_slot: a slot whose header cannot be read reads as empty.
    method LoadSlot(id: nat) returns (readable: bool)
      requires id < SLOTS && End(id) <= |flash| && |info| == SLOTS
      modifies `info
      ensures info == old(info)[id := if readable then Slot(flash, id) else EMPTY]
      ensures world != Anything ==> (readable <==> world != HeaderUnread)
    {
      var okH, h := Read(Base(id), HDR_BYTES, Head);
      var okC, c := Read(Base(id) + COMMIT_OFF, 4, Head);
      readable := okH && okC;
      info := info[id := if readable then Parse(id, h, c) else EMPTY];
    }

    /** blob_store_write_ext. Whatever fails and wherever it is cut, the flash holds the old slot untouched, an empty
        slot or the complete new one, and nothing outside the slot changed; the cache shows the slot exactly when
        the call succeeded. A failed write leaves something in the slot exactly when nothing was erased and a blob was
        there, when the whole commit word went in all the same, or when only reading it back failed. */
    method Write(id: nat, b: Blob, src: Source) returns (r: Result)
      requires Valid() && Delivers(src, b.len)
      modifies `flash, `info
      ensures Valid() && capacity == old(capacity) && |flash| == old(|flash|)
      ensures r == Refused <==> !SlotOk(id) || !WellFormed(id, b)
      ensures b.version < U32 && |b.sha| == 32 ==>
        (r == Refused <==> id >= SLOTS || (id >= LISTED && End(id) > capacity)
                           || b.len == 0 || b.len > Size(id) - HDR_SIZE || |b.extra| > EXTRA_MAX)
      ensures r == Refused ==> flash == old(flash) && info == old(info)
      ensures r != Refused ==> Atomic(old(flash), flash, id, b, hash)
      ensures r != Refused ==>
          info == old(info)[id := if r == Stored then Info(true, b.len, b.version, b.sha) else EMPTY]
      ensures r in {Stored, NotReadBack} ==> Holds(flash, id, b, hash) && hash(Delivered(src, 0, b.len)) == b.sha
      ensures r !in {Refused, Stored} ==> (Slot(flash, id) != EMPTY <==> LeftSomething(old(flash), flash, id, r))
      ensures SlotOk(id) && WellFormed(id, b) && hash(Delivered(src, 0, b.len)) == b.sha ==> InWorld(world, r)
      ensures r == EraseFailed && world == EraseDead ==> flash == old(flash)
      ensures r == CommitFailed && world == CommitLies ==> Holds(flash, id, b, hash)
    {
      if !SlotOk(id) || !WellFormed(id, b) { return Refused; }
      hide Slot, Holds, Ready, SameOutside, CacheOk, Atomic, Delivered, Delivers, CommitIn, WellFormed;
      ghost var f0, was := flash, info;
      InCache(was, f0, id);
      SlotsDisjoint(id, id);
      info := info[id := EMPTY];
      r := Attempt(id, b, src);
      OthersKept(f0, flash, id, b, hash);
      CacheFollows(was, f0, flash, id, EMPTY);
      if r == Stored {
        var _ := LoadSlot(id);
        HeldSlot(flash, id, b, hash);
        CacheFollows(was, f0, flash, id, info[id]);
        if !info[id].present { r := NotReadBack; }
      }
    }

    // Everything up to the commit word.
    method Attempt(id: nat, b: Blob, src: Source) returns (r: Result)
      requires id < SLOTS && End(id) <= |flash| && WellFormed(id, b) && Delivers(src, b.len)
      modifies `flash
      ensures Atomic(old(flash), flash, id, b, hash)
      ensures r !in {Refused, NotReadBack}
      ensures r == Stored ==> Holds(flash, id, b, hash) && hash(Delivered(src, 0, b.len)) == b.sha
      ensures r != Stored ==> (Slot(flash, id) != EMPTY <==> LeftSomething(old(flash), flash, id, r))
      ensures hash(Delivered(src, 0, b.len)) == b.sha ==>
          InWorld(world, if r == Stored && world == HeaderUnread then NotReadBack else r)
      ensures world == EraseDead ==> flash == old(flash)
      ensures r == CommitFailed && world == CommitLies ==> Holds(flash, id, b, hash)
    {
      hide Slot, Holds, Ready, Delivered, CommitIn;
      ghost var f0 := flash;
      r := WriteData(id, b, src);
      if r == Stored { r := WriteHeader(id, b, f0); }
    }

    /** blob_store_clear. */
    method Clear(id: nat) returns (ok: bool)
      requires Valid()
      modifies `flash, `info
      ensures Valid() && capacity == old(capacity) && |flash| == old(|flash|)
      ensures !SlotOk(id) ==> !ok && flash == old(flash) && info == old(info)
      ensures SlotOk(id) ==> info == old(info)[id := EMPTY]
      ensures SlotOk(id) ==> SameOutside(old(flash), flash, Base(id), Base(id) + HDR_SIZE)
      ensures SlotOk(id) ==> (flash == old(flash) && !ok) || Slot(flash, id) == EMPTY
      ensures SlotOk(id) && world == Healthy ==> ok
    {
      if !SlotOk(id) { return false; }
      hide Slot, Erased, SameOutside, CacheOk;
      ghost var f0, was := flash, info;
      InCache(was, f0, id);
      SlotsDisjoint(id, id);
      info := info[id := EMPTY];
      ok := EraseUnit(Base(id), SECTOR);
      AfterClear(f0, flash, id);
      CacheFollows(was, f0, flash, id, EMPTY);
      if ok {
        var _ := LoadSlot(id);
        CacheFollows(was, f0, flash, id, info[id]);
        ok := !info[id].present;
      }
    }

    /** blob_store_load: the cache from the headers; nothing is present without a usable chip. `unread` are the slots
        whose header could not be read; every other one is shown as the flash holds it. */
    method Load(usable: bool) returns (n: int, unread: set<nat>)
      requires Valid()
      modifies `info, `capacity
      ensures Valid() && (usable ==> capacity == |flash|)
      ensures !usable ==> n == -1 && forall i :: 0 <= i < SLOTS ==> info[i] == EMPTY
      ensures usable ==> n == Count(info)
      ensures usable ==> forall i :: 0 <= i < SLOTS ==> info[i] == if i in unread then EMPTY else Slot(flash, i)
      ensures world == Healthy ==> unread == {}
    {
      hide Slot;
      info, capacity, unread := seq(SLOTS, _ => EMPTY), 0, {};
      if !usable { return -1, {}; }
      capacity := |flash|;
      var id := 0;
      n := 0;
      CountEmpty(info);
      while id < SLOTS
        invariant 0 <= id <= SLOTS && |info| == SLOTS && capacity == |flash|
        invariant forall i :: 0 <= i < id ==> info[i] == if i in unread then EMPTY else Slot(flash, i)
        invariant forall i :: id <= i < SLOTS ==> info[i] == EMPTY
        invariant forall i :: i in unread ==> i < id
        invariant n == Count(info) && (world == Healthy ==> unread == {})
      {
        SlotsDisjoint(id, id);
        if SlotOk(id) {
          ghost var was := info;
          var readable := LoadSlot(id);
          CountUpdate(was, id, info[id]);
          if info[id].present { n := n + 1; }
          if !readable { unread := unread + {id}; }
        }
        id := id + 1;
      }
    }

    // blob_store_read: only from a present slot, never past its data.
    method ReadBlob(id: nat, off: nat, n: nat) returns (ok: bool, data: seq<byte>)
      requires Valid()
      ensures ok ==> id < SLOTS && info[id].present && off + n <= info[id].len
      ensures ok ==> End(id) <= |flash| && data == flash[Base(id) + HDR_SIZE..][off..off + n]
      ensures !(id < SLOTS && info[id].present && off + n <= info[id].len) ==> !ok
      ensures world != Anything ==> (ok <==> id < SLOTS && info[id].present && off + n <= info[id].len)
    {
      ok, data := false, [];
      if id >= SLOTS || !info[id].present || off > info[id].len || n > info[id].len - off { return; }
      SlotsDisjoint(id, id);
      PresentFits(flash, id);
      SliceOfDrop(flash, Base(id) + HDR_SIZE, off, n);
      ok, data := Read(Base(id) + HDR_SIZE + off, n, Data);
    }
  }

  lemma SliceOfDrop(f: seq<byte>, at: nat, off: nat, n: nat)
    requires at + off + n <= |f|
    ensures f[at..][off..off + n] == f[at + off..at + off + n]
  {
  }

  // Present slots of the cache.
  function Count(info: seq<Info>): nat {
    if info == [] then 0 else (if info[0].present then 1 else 0) + Count(info[1..])
  }

  lemma {:induction false} CountEmpty(info: seq<Info>)
    requires forall i :: 0 <= i < |info| ==> info[i] == EMPTY
    ensures Count(info) == 0
  {
    if info != [] { CountEmpty(info[1..]); }
  }

  lemma {:induction false} CountUpdate(info: seq<Info>, i: nat, e: Info)
    requires i < |info| && !info[i].present
    ensures Count(info[i := e]) == Count(info) + (if e.present then 1 else 0)
  {
    if i > 0 {
      CountUpdate(info[1..], i - 1, e);
      assert info[i := e][1..] == info[1..][i - 1 := e];
    } else {
      assert info[i := e][1..] == info[1..];
    }
  }

  lemma PresentFits(f: seq<byte>, id: nat)
    requires id < SLOTS && End(id) <= |f| && Slot(f, id).present
    ensures 0 < Slot(f, id).len <= Capacity(id)
  {
  }

  // Every other slot reads as before.
  lemma OthersKept(f: seq<byte>, g: seq<byte>, id: nat, b: Blob, hash: seq<byte> -> seq<byte>)
    requires id < SLOTS && b.len <= Capacity(id) && |b.extra| <= EXTRA_MAX && Atomic(f, g, id, b, hash)
    ensures |g| == |f| && forall i :: 0 <= i < SLOTS && i != id && End(i) <= |f| ==> Slot(g, i) == Slot(f, i)
  {
    hide Slot, Holds;
    forall i | 0 <= i < SLOTS && i != id && End(i) <= |f|
      ensures Slot(g, i) == Slot(f, i)
    {
      SlotsDisjoint(i, id);
      SlotIsLocal(f, g, i, Base(id), End(id));
    }
  }

  lemma HeldSlot(f: seq<byte>, id: nat, b: Blob, hash: seq<byte> -> seq<byte>)
    requires id < SLOTS && WellFormed(id, b) && End(id) <= |f| && Holds(f, id, b, hash)
    ensures Slot(f, id) == Info(true, b.len, b.version, b.sha)
  {
  }

  lemma AfterClear(f: seq<byte>, g: seq<byte>, id: nat)
    requires id < SLOTS && End(id) <= |f| && (g == f || g == Erased(f, Base(id), Base(id) + SECTOR))
    ensures |g| == |f| && SameOutside(f, g, Base(id), Base(id) + HDR_SIZE) && (g == f || Slot(g, id) == EMPTY)
    ensures g != f ==> g == Erased(f, Base(id), Base(id) + SECTOR)
    ensures g == Erased(f, Base(id), Base(id) + SECTOR) ==> Slot(g, id) == EMPTY
    ensures forall i :: 0 <= i < SLOTS && i != id && End(i) <= |f| ==> Slot(g, i) == Slot(f, i)
  {
    hide Slot;
    SlotsDisjoint(id, id);
    var e := Erased(f, Base(id), Base(id) + SECTOR);
    ErasedIs(f, Base(id), Base(id) + SECTOR);
    BlankIsEmpty(e, id);
    forall i | 0 <= i < SLOTS && i != id && End(i) <= |f|
      ensures Slot(g, i) == Slot(f, i)
    {
      SlotsDisjoint(i, id);
      SlotIsLocal(f, g, i, Base(id), Base(id) + HDR_SIZE);
    }
  }

  /** "Failed, slot left empty" is not so for the last command: a commit program that reports failure may have
      written the whole word, and then the new slot is there after the next boot. */
  lemma FailedCommitMayHold(f0: seq<byte>, f: seq<byte>, id: nat, b: Blob, hash: seq<byte> -> seq<byte>)
    requires id < SLOTS && WellFormed(id, b) && Headed(f0, f, id, b, hash)
    ensures var at, c := Base(id) + COMMIT_OFF, Le32(COMMIT_MAGIC);
            var g := Programmed(f, at, c);
            Cut(f, g, at, c) && End(id) <= |g| && Holds(g, id, b, hash)
  {
    hide Cut, Programmed, Holds, Le32;
    var at, c := Base(id) + COMMIT_OFF, Le32(COMMIT_MAGIC);
    CutEnds(f, at, c);
    AfterCommit(f0, f, Programmed(f, at, c), id, b, hash, true);
  }

  // blob_store_write_ext's own argument checks
  predicate WellFormed(id: nat, b: Blob)
    requires id < SLOTS
  {
    && 0 < b.len <= Capacity(id) && |b.extra| <= EXTRA_MAX
    && b.version < 0x1_0000_0000 && |b.sha| == 32
  }

  ghost predicate Ready(f0: seq<byte>, f: seq<byte>, id: nat, b: Blob, hash: seq<byte> -> seq<byte>)
    requires id < SLOTS && WellFormed(id, b)
  {
    && End(id) <= |f| && SameOutside(f0, f, Base(id), End(id)) && IsBlank(f, Base(id), Base(id) + HDR_SIZE)
    && hash(f[Base(id) + HDR_SIZE..Base(id) + HDR_SIZE + b.len]) == b.sha
  }

  // Ready, with the extra bytes in and the first 256 header bytes blank.
  ghost predicate Annotated(f0: seq<byte>, f: seq<byte>, id: nat, b: Blob, hash: seq<byte> -> seq<byte>)
    requires id < SLOTS && WellFormed(id, b)
  {
    && End(id) <= |f| && SameOutside(f0, f, Base(id), End(id)) && IsBlank(f, Base(id), Base(id) + EXTRA_OFF)
    && hash(f[Base(id) + HDR_SIZE..Base(id) + HDR_SIZE + b.len]) == b.sha
    && f[Base(id) + EXTRA_OFF..Base(id) + EXTRA_OFF + |b.extra|] == b.extra
  }

  // Annotated, with the header in; only the commit word is missing.
  ghost predicate Headed(f0: seq<byte>, f: seq<byte>, id: nat, b: Blob, hash: seq<byte> -> seq<byte>)
    requires id < SLOTS && WellFormed(id, b)
  {
    && End(id) <= |f| && SameOutside(f0, f, Base(id), End(id))
    && IsBlank(f, Base(id) + COMMIT_OFF, Base(id) + COMMIT_OFF + 4)
    && f[Base(id)..Base(id) + HDR_BYTES] == Header(id, b.len, b.version, b.sha)
    && hash(f[Base(id) + HDR_SIZE..Base(id) + HDR_SIZE + b.len]) == b.sha
    && f[Base(id) + EXTRA_OFF..Base(id) + EXTRA_OFF + |b.extra|] == b.extra
  }

  lemma SlotRoom(id: nat, len: nat)
    requires id < SLOTS && len <= Capacity(id)
    ensures Floor(Base(id)) == Base(id) && Base(id) + HDR_SIZE + len <= Ceil(Base(id) + (HDR_SIZE + len)) <= End(id)
  {
    SlotsDisjoint(id, id);
    CeilInside(Base(id) + HDR_SIZE + len, End(id));
  }

  lemma BlankPart(f: seq<byte>, lo: nat, hi: nat, lo': nat, hi': nat)
    requires IsBlank(f, lo, hi) && lo <= lo' <= hi' <= hi
    ensures IsBlank(f, lo', hi')
  {
  }

  lemma AfterErase(f0: seq<byte>, f: seq<byte>, id: nat, b: Blob, hash: seq<byte> -> seq<byte>, upto: nat)
    requires id < SLOTS && End(id) <= |f0| && WellFormed(id, b) && Base(id) <= upto <= End(id) && upto % SECTOR == 0
    requires f == Erased(f0, Base(id), upto)
    ensures Atomic(f0, f, id, b, hash) && (upto > Base(id) ==> Slot(f, id) == EMPTY) && (upto == Base(id) ==> f == f0)
  {
    SlotsDisjoint(id, id);
    if upto == Base(id) {
      assert f == f0;
    } else {
      WholeSectors(Base(id), upto);
      ErasedSlotIsEmpty(f0, f, id, upto);
    }
  }

  lemma ReadyFacts(f0: seq<byte>, f: seq<byte>, id: nat, b: Blob, hash: seq<byte> -> seq<byte>)
    requires id < SLOTS && WellFormed(id, b) && Ready(f0, f, id, b, hash)
    ensures IsBlank(f, Base(id) + EXTRA_OFF, Base(id) + EXTRA_OFF + |b.extra|)
  {
    BlankPart(f, Base(id), Base(id) + HDR_SIZE, Base(id) + EXTRA_OFF, Base(id) + EXTRA_OFF + |b.extra|);
  }

  lemma NoExtra(f0: seq<byte>, f: seq<byte>, id: nat, b: Blob, hash: seq<byte> -> seq<byte>)
    requires id < SLOTS && WellFormed(id, b) && Ready(f0, f, id, b, hash) && b.extra == []
    ensures Annotated(f0, f, id, b, hash)
  {
    BlankPart(f, Base(id), Base(id) + HDR_SIZE, Base(id), Base(id) + EXTRA_OFF);
  }

  lemma AfterExtra(f0: seq<byte>, f: seq<byte>, g: seq<byte>, id: nat, b: Blob, hash: seq<byte> -> seq<byte>, ok: bool)
    requires id < SLOTS && WellFormed(id, b) && Ready(f0, f, id, b, hash)
    requires var at := Base(id) + EXTRA_OFF; if ok then g == Programmed(f, at, b.extra) else Cut(f, g, at, b.extra)
    ensures if ok then Annotated(f0, g, id, b, hash)
            else End(id) <= |g| && Slot(g, id) == EMPTY && Atomic(f0, g, id, b, hash)
  {
    hide Slot, Cut, Programmed;
    var base, at := Base(id), Base(id) + EXTRA_OFF;
    ProgramOutside(f, g, at, b.extra);
    Widen(f, g, at, at + |b.extra|, base, End(id));
    Chain(f0, f, g, base, End(id));
    BlankPart(f, base, base + HDR_SIZE, base, base + EXTRA_OFF);
    StaysBlank(f, g, base, base + EXTRA_OFF, at, at + |b.extra|);
    BlankPart(g, base, base + EXTRA_OFF, base, base + 4);
    BlankIsEmpty(g, id);
    RangeKept(f, g, at, at + |b.extra|, base + HDR_SIZE, base + HDR_SIZE + b.len);
    BlankPart(f, base, base + HDR_SIZE, at, at + |b.extra|);
    ProgramBlank(f, at, b.extra);
  }

  lemma AfterHeader(f0: seq<byte>, f: seq<byte>, g: seq<byte>, id: nat, b: Blob, hash: seq<byte> -> seq<byte>,
                    h: seq<byte>, ok: bool)
    requires id < SLOTS && WellFormed(id, b) && Annotated(f0, f, id, b, hash)
    requires h == Header(id, b.len, b.version, b.sha)
    requires if ok then g == Programmed(f, Base(id), h) else Cut(f, g, Base(id), h)
    ensures End(id) <= |g|
    ensures if ok then Headed(f0, g, id, b, hash) else Slot(g, id) == EMPTY && Atomic(f0, g, id, b, hash)
  {
    hide Slot, Cut, Programmed, Header;
    var base := Base(id);
    ProgramOutside(f, g, base, h);
    Widen(f, g, base, base + HDR_BYTES, base, End(id));
    Chain(f0, f, g, base, End(id));
    BlankPart(f, base, base + EXTRA_OFF, base + COMMIT_OFF, base + COMMIT_OFF + 4);
    StaysBlank(f, g, base + COMMIT_OFF, base + COMMIT_OFF + 4, base, base + HDR_BYTES);
    BlankIsEmpty(g, id);
    RangeKept(f, g, base, base + HDR_BYTES, base + HDR_SIZE, base + HDR_SIZE + b.len);
    RangeKept(f, g, base, base + HDR_BYTES, base + EXTRA_OFF, base + EXTRA_OFF + |b.extra|);
    BlankPart(f, base, base + EXTRA_OFF, base, base + HDR_BYTES);
    ProgramBlank(f, base, h);
  }

  lemma AfterCommit(f0: seq<byte>, f: seq<byte>, g: seq<byte>, id: nat, b: Blob, hash: seq<byte> -> seq<byte>, ok: bool)
    requires id < SLOTS && WellFormed(id, b) && Headed(f0, f, id, b, hash)
    requires var at, c := Base(id) + COMMIT_OFF, Le32(COMMIT_MAGIC);
        if ok then g == Programmed(f, at, c) else Cut(f, g, at, c)
    ensures End(id) <= |g| && Atomic(f0, g, id, b, hash) && (ok ==> Holds(g, id, b, hash))
    ensures Slot(g, id) != EMPTY <==> CommitIn(g, id)
  {
    hide Slot, Cut, Programmed, Header, Le32;
    var base, at, c := Base(id), Base(id) + COMMIT_OFF, Le32(COMMIT_MAGIC);
    ProgramOutside(f, g, at, c);
    Widen(f, g, at, at + 4, base, End(id));
    Chain(f0, f, g, base, End(id));
    RangeKept(f, g, at, at + 4, base + HDR_SIZE, base + HDR_SIZE + b.len);
    RangeKept(f, g, at, at + 4, base + EXTRA_OFF, base + EXTRA_OFF + |b.extra|);
    CommitDecides(f, g, id, b);
    ProgramBlank(f, at, c);
    Le32RoundTrip(COMMIT_MAGIC);
    FromLe32RoundTrip(g[at..at + 4]);
  }
}
