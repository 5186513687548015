/** Reading, writing and truncating files as flat byte sequences (fs/sfs/sfs_inode.c lines 439-535 and 778-826). */
module SfsFile {
  import opened SfsState
  import opened SfsBlocks

  const MAX_FILE_SIZE: nat := 0x800_0000

  // ---------- Files as bytes ----------

  /** Block `i` after the bytes `d` have been laid over the file at `offset`. */
  function Mix(i: nat, b: Block, offset: nat, d: seq<Byte>): Block {
    seq(BLKSIZE, k requires 0 <= k < BLKSIZE => if offset <= i * BLKSIZE + k < offset + |d| then d[i * BLKSIZE + k - offset] else b[k])
  }

  /** Block `i` of a file, or what it would be if the file grew. */
  ghost function Base(fs: Fs, ino: nat, i: nat): Block
    requires ino in fs.files
  {
    if i < fs.files[ino].blocks then Blk(fs, ino, i) else Zeroes()
  }

  /** The other files are what they were. */
  ghost predicate OthersSame(fs: Fs, fs': Fs, ino: nat) {
    && OthersKept(fs, fs', ino)
    && forall j, i | j in fs.files && j != ino && 0 <= i < fs.files[j].blocks :: Blk(fs', j, i) == Blk(fs, j, i)
  }

  /** How many free blocks it takes to make a file `t` blocks long. */
  function Needed(din: Din, t: nat): nat {
    if t <= din.blocks then 0 else t - din.blocks + if t > NDIRECT && din.indirect == 0 then 1 else 0
  }

  /** The block counters of file `ino` from `fs` to `fs'`, and what was paid for it. */
  ghost predicate Paid(fs: Fs, fs': Fs, ino: nat)
    requires ino in fs.files && ino in fs'.files
  {
    && fs'.files[ino].blocks >= fs.files[ino].blocks && |fs'.free| + Needed(fs.files[ino], fs'.files[ino].blocks) == |fs.free|
    && (fs'.files[ino].indirect != 0 <==> fs.files[ino].indirect != 0 || (fs'.files[ino].blocks > fs.files[ino].blocks && fs'.files[ino].blocks > NDIRECT))
  }

  /** `fs'` is `fs` with `d` written to file `ino` at `offset`, but for the size. */
  ghost predicate Laid(fs: Fs, fs': Fs, ino: nat, offset: nat, d: seq<Byte>) {
    && ino in fs.files && ino in fs'.files && OthersSame(fs, fs', ino) && Paid(fs, fs', ino)
    && fs'.files[ino].size == fs.files[ino].size
    && forall i: nat | i < fs'.files[ino].blocks :: Blk(fs', ino, i) == Mix(i, Base(fs, ino, i), offset, d)
  }

  /** One block is patched; it is new if it was just beyond the end. */
  ghost predicate Chunked(fs: Fs, fs': Fs, ino: nat, blkno: nat, off: nat, chunk: seq<Byte>) {
    && ino in fs.files && ino in fs'.files && OthersSame(fs, fs', ino) && Paid(fs, fs', ino) && off + |chunk| <= BLKSIZE
    && fs'.files[ino].size == fs.files[ino].size
    && fs'.files[ino].blocks == (if blkno == fs.files[ino].blocks then blkno + 1 else fs.files[ino].blocks)
    && blkno < fs'.files[ino].blocks && Blk(fs', ino, blkno) == Patch(Base(fs, ino, blkno), off, chunk)
    && forall i: nat | i < fs.files[ino].blocks && i != blkno :: Blk(fs', ino, i) == Blk(fs, ino, i)
  }

  lemma {:induction false} MixPatch(i: nat, b: Block, offset: nat, d: seq<Byte>, off: nat, chunk: seq<Byte>)
    requires i * BLKSIZE + off == offset + |d| && off + |chunk| <= BLKSIZE
    ensures Patch(Mix(i, b, offset, d), off, chunk) == Mix(i, b, offset, d + chunk)
  {
    var p, m := Patch(Mix(i, b, offset, d), off, chunk), Mix(i, b, offset, d + chunk);
    forall k: nat | k < BLKSIZE ensures p[k] == m[k] {
    }
  }

  lemma {:induction false} MixElsewhere(i: nat, b: Block, offset: nat, d: seq<Byte>, chunk: seq<Byte>)
    requires offset + |d| + |chunk| <= i * BLKSIZE || (i + 1) * BLKSIZE <= offset + |d|
    ensures Mix(i, b, offset, d + chunk) == Mix(i, b, offset, d)
  {
  }

  lemma {:induction false} MixNothing(i: nat, b: Block, offset: nat, d: seq<Byte>)
    requires d == [] || offset + |d| <= i * BLKSIZE
    ensures Mix(i, b, offset, d) == b
  {
  }

  lemma {:induction false} PaidTwice(fs0: Fs, fs: Fs, fs': Fs, ino: nat)
    requires ino in fs0.files && ino in fs.files && ino in fs'.files && Paid(fs0, fs, ino) && Paid(fs, fs', ino)
    ensures Paid(fs0, fs', ino)
  {
  }

  /** Writing the next chunk of `d` brings the file on. */
  lemma {:induction false} ChunkLaid(fs0: Fs, fs: Fs, fs': Fs, ino: nat, offset: nat, d: seq<Byte>, blkno: nat, off: nat, chunk: seq<Byte>)
    requires Laid(fs0, fs, ino, offset, d) && Chunked(fs, fs', ino, blkno, off, chunk)
    requires blkno <= fs.files[ino].blocks && blkno * BLKSIZE + off == offset + |d| && (d == [] || off == 0)
    ensures Laid(fs0, fs', ino, offset, d + chunk)
  {
    PaidTwice(fs0, fs, fs', ino);
    forall i: nat | i < fs'.files[ino].blocks
      ensures Blk(fs', ino, i) == Mix(i, Base(fs0, ino, i), offset, d + chunk)
    {
      var b := Base(fs0, ino, i);
      if i == blkno {
        if blkno == fs.files[ino].blocks { BlocksBefore(fs0, fs, ino, offset, d, blkno); }
        MixPatch(i, b, offset, d, off, chunk);
      } else { MixElsewhere(i, b, offset, d, chunk); }
    }
  }

  lemma {:induction false} BlocksBefore(fs0: Fs, fs: Fs, ino: nat, offset: nat, d: seq<Byte>, blkno: nat)
    requires Laid(fs0, fs, ino, offset, d) && blkno == fs.files[ino].blocks
    requires d == [] || offset + |d| <= blkno * BLKSIZE
    ensures Base(fs0, ino, blkno) == Zeroes() && Mix(blkno, Base(fs0, ino, blkno), offset, d) == Zeroes()
  {
    MixNothing(blkno, Zeroes(), offset, d);
  }

  // ---------- One block at a time ----------

  /** Writing into a data block is a chunk. */
  lemma {:induction false} PatchIsChunk(fs: Fs, own: map<nat, Owner>, mid: Fs, own': map<nat, Owner>, fs': Fs, ino: nat, blkno: nat, off: nat, chunk: seq<Byte>, b: nat)
    requires Inv(fs, own) && ino in fs.files && off + |chunk| <= BLKSIZE && blkno <= fs.files[ino].blocks
    requires Inv(mid, own') && OwnedBy(own', b, Data(ino, blkno)) && b < |mid.disk|
    requires if blkno < fs.files[ino].blocks then mid == fs && own' == own else Appended(fs, own, mid, own', ino, b)
    requires fs' == mid.(disk := mid.disk[b := Patch(mid.disk[b], off, chunk)])
    ensures Inv(fs', own') && Chunked(fs, fs', ino, blkno, off, chunk)
  {
    DataWriteKeepsInv(mid, own', b, Patch(mid.disk[b], off, chunk));
    BlockOfOwner(mid, own', b, ino, blkno);
    BlockOfOwner(fs', own', b, ino, blkno);
    assert FileOk(fs, own, ino);
    assert DataKept(mid, own', fs', own', Data(ino, blkno));
    forall j, i: nat | j in fs.files && i < fs.files[j].blocks && !(j == ino && i == blkno)
      ensures Blk(fs', j, i) == Blk(fs, j, i)
    {
      if mid != fs { BlkKept(fs, own, mid, own', Data(ino, blkno), j, i); }
      BlkKept(mid, own', fs', own', Data(ino, blkno), j, i);
    }
  }

  /** sfs_bmap_load_nolock and then sfs_wbuf, or sfs_wblock for a whole block. */
  method WriteChunk(s: Sfs, ino: nat, blkno: nat, off: nat, chunk: seq<Byte>) returns (ok: bool)
    requires s.Valid() && ino in s.files && blkno <= s.files[ino].blocks && blkno < MAX_BLOCKS && off + |chunk| <= BLKSIZE
    modifies s, s.freemap.words
    ensures s.Valid() && (ok <==> blkno < old(s.files)[ino].blocks || |old(s.View()).free| >= NeedOne(old(s.files)[ino]))
    ensures !ok ==> Untouched(old(s.View()), s.View()) && s.own == old(s.own)
    ensures ok ==> Chunked(old(s.View()), s.View(), ino, blkno, off, chunk)
  {
    ghost var was, own := s.View(), s.own;
    var b;
    ok, b := s.BmapLoad(ino, blkno);
    if !ok { return; }
    ghost var mid := s.View();
    BlockOfOwner(mid, s.own, b, ino, blkno);
    if |chunk| == BLKSIZE { s.Wblock(chunk, b); } else { s.Wbuf(chunk, b, off); }
    PatchIsChunk(was, own, mid, s.own, s.View(), ino, blkno, off, chunk, b);
  }

  // ---------- Write ----------

  function CeilBlocks(n: nat): nat { (n + BLKSIZE - 1) / BLKSIZE }

  function Max(a: nat, b: nat): nat { if a < b then b else a }

  lemma {:induction false} LaidNothing(fs: Fs, ino: nat, offset: nat)
    requires ino in fs.files
    ensures Laid(fs, fs, ino, offset, [])
  {
    forall i: nat | i < fs.files[ino].blocks ensures Blk(fs, ino, i) == Mix(i, Base(fs, ino, i), offset, []) {
      MixNothing(i, Base(fs, ino, i), offset, []);
    }
  }

  /** A failed attempt to make a block changes no file. */
  lemma {:induction false} UntouchedLaid(fs0: Fs, fs: Fs, own: map<nat, Owner>, fs': Fs, ino: nat, offset: nat, d: seq<Byte>)
    requires Laid(fs0, fs, ino, offset, d) && Inv(fs, own) && Inv(fs', own) && Untouched(fs, fs')
    ensures Laid(fs0, fs', ino, offset, d)
  {
    forall j, i: nat | j in fs.files && i < fs.files[j].blocks
      ensures Blk(fs', j, i) == Blk(fs, j, i)
    {
      assert DataKept(fs, own, fs', own, Meta);
      BlkKept(fs, own, fs', own, Meta, j, i);
    }
    forall j | j in fs0.files && j != ino ensures fs.files[j] == fs0.files[j] { }
  }

  /** Why a write that stops short had to stop: the whole of it needs more blocks than were free. */
  lemma {:induction false} NotEnough(fs0: Fs, fs: Fs, ino: nat, t: nat)
    requires ino in fs0.files && ino in fs.files && Paid(fs0, fs, ino) && t > fs.files[ino].blocks
    requires |fs.free| < NeedOne(fs.files[ino])
    ensures Needed(fs0.files[ino], t) > |fs0.free|
  {
  }

  /** What is known when a write ends after `alen` bytes of `data`, which end in the block before `last`. */
  ghost predicate WriteEnds(fs0: Fs, fs: Fs, ino: nat, offset: nat, data: seq<Byte>, last: nat, ok: bool, alen: nat) {
    && alen <= |data| && Laid(fs0, fs, ino, offset, data[..alen])
    && (ok <==> Needed(fs0.files[ino], last) <= |fs0.free|)
    && (ok ==> alen == |data| && fs.files[ino].blocks == Max(fs0.files[ino].blocks, last))
    && (!ok ==> alen < |data|)
    && (!ok && alen == 0 ==> fs.files[ino].blocks == fs0.files[ino].blocks && fs.files[ino].blocks * BLKSIZE <= offset < (fs.files[ino].blocks + 1) * BLKSIZE)
    && (!ok && alen == 0 ==> |fs0.free| < NeedOne(fs0.files[ino]))
    && (!ok && alen > 0 ==> fs.files[ino].blocks * BLKSIZE == offset + alen)
  }

  /** A write under way: `alen` bytes are written, and the next one goes to `off` in block `blkno`. */
  ghost predicate Going(fs0: Fs, fs: Fs, ino: nat, offset: nat, data: seq<Byte>, alen: nat, blkno: nat, off: nat) {
    && alen <= |data| && Laid(fs0, fs, ino, offset, data[..alen]) && off < BLKSIZE
    && blkno * BLKSIZE + off == offset + alen && (alen == 0 || off == 0) && (alen == 0 ==> blkno <= fs0.files[ino].blocks)
    && fs.files[ino].blocks == Max(fs0.files[ino].blocks, blkno)
  }

  lemma {:induction false} NextLaid(fs0: Fs, fs: Fs, fs': Fs, ino: nat, offset: nat, data: seq<Byte>, alen: nat, blkno: nat, off: nat, size: nat)
    requires Going(fs0, fs, ino, offset, data, alen, blkno, off) && alen + size <= |data|
    requires Chunked(fs, fs', ino, blkno, off, data[alen..alen + size])
    ensures Laid(fs0, fs', ino, offset, data[..alen + size])
  {
    ChunkLaid(fs0, fs, fs', ino, offset, data[..alen], blkno, off, data[alen..alen + size]);
    assert data[..alen] + data[alen..alen + size] == data[..alen + size];
  }

  lemma {:induction false} StopsShort(fs0: Fs, fs: Fs, own: map<nat, Owner>, fs': Fs, ino: nat, offset: nat, data: seq<Byte>, alen: nat, blkno: nat, off: nat, last: nat)
    requires Going(fs0, fs, ino, offset, data, alen, blkno, off) && alen < |data| && blkno < last
    requires Inv(fs, own) && Inv(fs', own) && Untouched(fs, fs') && blkno >= fs.files[ino].blocks && |fs.free| < NeedOne(fs.files[ino])
    ensures WriteEnds(fs0, fs', ino, offset, data, last, false, alen)
  {
    UntouchedLaid(fs0, fs, own, fs', ino, offset, data[..alen]);
    NotEnough(fs0, fs, ino, last);
  }

  /** One more chunk of a write: the next `size` bytes of `data`. */
  method WriteNext(s: Sfs, ino: nat, blkno: nat, off: nat, size: nat, data: seq<Byte>, alen: nat, offset: nat, ghost fs0: Fs, ghost last: nat)
      returns (ok: bool)
    requires s.Valid() && Going(fs0, s.View(), ino, offset, data, alen, blkno, off) && blkno < last <= MAX_BLOCKS
    requires 0 < size && alen + size <= |data| && off + size <= BLKSIZE
    modifies s, s.freemap.words
    ensures s.Valid()
    ensures ok && off + size == BLKSIZE ==> Going(fs0, s.View(), ino, offset, data, alen + size, blkno + 1, 0)
    ensures ok && alen + size == |data| && last == blkno + 1 ==> WriteEnds(fs0, s.View(), ino, offset, data, last, true, |data|)
    ensures !ok ==> WriteEnds(fs0, s.View(), ino, offset, data, last, false, alen)
  {
    hide Inv, FileOk, Space;
    ghost var was := s.View();
    ok := WriteChunk(s, ino, blkno, off, data[alen..alen + size]);
    if ok {
      NextLaid(fs0, was, s.View(), ino, offset, data, alen, blkno, off, size);
      if alen + size == |data| && last == blkno + 1 { WriteCompletes(fs0, s.View(), ino, offset, data, last); }
    } else {
      StopsShort(fs0, was, s.own, s.View(), ino, offset, data, alen, blkno, off, last);
    }
  }

  /** The loop of sfs_io_nolock over whole blocks. */
  method WriteWhole(s: Sfs, ino: nat, data: seq<Byte>, alen0: nat, blkno0: nat, nblks0: nat, offset: nat, ghost fs0: Fs, ghost last: nat)
      returns (ok: bool, alen: nat)
    requires s.Valid() && Going(fs0, s.View(), ino, offset, data, alen0, blkno0, 0) && blkno0 + nblks0 <= last <= MAX_BLOCKS
    requires (blkno0 + nblks0) * BLKSIZE <= offset + |data|
    modifies s, s.freemap.words
    ensures s.Valid()
    ensures ok ==> Going(fs0, s.View(), ino, offset, data, alen, blkno0 + nblks0, 0)
    ensures !ok ==> WriteEnds(fs0, s.View(), ino, offset, data, last, false, alen)
  {
    hide Inv, FileOk, Space;
    var blkno: nat, nblks: nat := blkno0, nblks0;
    alen := alen0;
    while nblks != 0
      invariant s.Valid() && Going(fs0, s.View(), ino, offset, data, alen, blkno, 0)
      invariant blkno + nblks == blkno0 + nblks0
    {
      ok := WriteNext(s, ino, blkno, 0, BLKSIZE, data, alen, offset, fs0, last);
      if !ok { return; }
      alen, blkno, nblks := alen + BLKSIZE, blkno + 1, nblks - 1;
    }
    ok := true;
  }

  lemma {:induction false} WriteCompletes(fs0: Fs, fs: Fs, ino: nat, offset: nat, data: seq<Byte>, last: nat)
    requires Laid(fs0, fs, ino, offset, data[..|data|]) && fs.files[ino].blocks == Max(fs0.files[ino].blocks, last)
    ensures WriteEnds(fs0, fs, ino, offset, data, last, true, |data|)
  {
  }

  /** The whole blocks and the part of the last one. */
  method WriteRest(s: Sfs, ino: nat, data: seq<Byte>, alen0: nat, blkno: nat, nblks: nat, rest: nat, offset: nat, ghost fs0: Fs, ghost last: nat)
      returns (ok: bool, alen: nat)
    requires s.Valid() && Going(fs0, s.View(), ino, offset, data, alen0, blkno, 0) && last <= MAX_BLOCKS
    requires rest < BLKSIZE && alen0 + nblks * BLKSIZE + rest == |data| && last == blkno + nblks + if rest > 0 then 1 else 0
    modifies s, s.freemap.words
    ensures s.Valid() && WriteEnds(fs0, s.View(), ino, offset, data, last, ok, alen)
  {
    hide Laid, Inv, Space, FileOk;
    ok, alen := WriteWhole(s, ino, data, alen0, blkno, nblks, offset, fs0, last);
    if !ok { return; }
    if rest != 0 {
      ok := WriteNext(s, ino, blkno + nblks, 0, rest, data, alen, offset, fs0, last);
      if ok { alen := alen + rest; }
    } else {
      WriteCompletes(fs0, s.View(), ino, offset, data, last);
    }
  }

  lemma {:induction false} LastBlockOf(offset: nat, len: nat)
    requires len > 0
    ensures var endpos := offset + len;
      && (offset / BLKSIZE) * BLKSIZE + offset % BLKSIZE == offset && (endpos / BLKSIZE) * BLKSIZE + endpos % BLKSIZE == endpos
      && CeilBlocks(endpos) == endpos / BLKSIZE + (if endpos % BLKSIZE > 0 then 1 else 0)
      && offset / BLKSIZE < CeilBlocks(endpos) && offset / BLKSIZE <= endpos / BLKSIZE
  {
  }

  /** The part of the first block, and the rest. */
  method WriteParts(s: Sfs, ino: nat, data: seq<Byte>, blkno: nat, blkoff: nat, nblks: nat, rest: nat, offset: nat, ghost fs0: Fs, ghost last: nat)
      returns (ok: bool, alen: nat)
    requires s.Valid() && Going(fs0, s.View(), ino, offset, data, 0, blkno, blkoff) && last <= MAX_BLOCKS && data != []
    requires rest < BLKSIZE && (blkno + nblks) * BLKSIZE + rest == offset + |data| && last == blkno + nblks + if rest > 0 then 1 else 0
    modifies s, s.freemap.words
    ensures s.Valid() && WriteEnds(fs0, s.View(), ino, offset, data, last, ok, alen)
  {
    hide Laid, WriteEnds, Inv, Space, FileOk;
    if blkoff == 0 { ok, alen := WriteRest(s, ino, data, 0, blkno, nblks, rest, offset, fs0, last); }
    else if nblks == 0 {
      ok := WriteNext(s, ino, blkno, blkoff, |data|, data, 0, offset, fs0, last);
      alen := if ok then |data| else 0;
    } else {
      ok := WriteNext(s, ino, blkno, blkoff, BLKSIZE - blkoff, data, 0, offset, fs0, last);
      if !ok { alen := 0; return; }
      ok, alen := WriteRest(s, ino, data, BLKSIZE - blkoff, blkno + 1, nblks - 1, rest, offset, fs0, last);
    }
  }

  /** sfs_io_nolock for writing, between its checks and its end. */
  method WriteBody(s: Sfs, ino: nat, data: seq<Byte>, offset: nat) returns (ok: bool, alen: nat)
    requires s.Valid() && ino in s.files && data != [] && offset / BLKSIZE <= s.files[ino].blocks && CeilBlocks(offset + |data|) <= MAX_BLOCKS
    modifies s, s.freemap.words
    ensures s.Valid() && WriteEnds(old(s.View()), s.View(), ino, offset, data, CeilBlocks(offset + |data|), ok, alen)
  {
    hide Inv, FileOk, Space;
    LastBlockOf(offset, |data|);
    LaidNothing(s.View(), ino, offset);
    assert data[..0] == [];
    var endpos := offset + |data|;
    var blkno := offset / BLKSIZE;
    ok, alen := WriteParts(s, ino, data, blkno, offset % BLKSIZE, endpos / BLKSIZE - blkno, endpos % BLKSIZE, offset, s.View(), CeilBlocks(endpos));
  }

  // ---------- The entry points ----------

  /** offset + len in a 32-bit off_t, where len is an unsigned 32-bit size_t. */
  function EndPos(offset: int, len: nat): int {
    var sum := (offset + len) % 0x1_0000_0000;
    if sum < 0x8000_0000 then sum else sum - 0x1_0000_0000
  }

  predicate Rejected(offset: int, len: nat) {
    offset < 0 || offset >= MAX_FILE_SIZE || offset > EndPos(offset, len)
  }

  /** The test rejects exactly the offsets outside the file limit and the lengths that overflow. */
  lemma {:induction false} RejectedExactly(offset: int, len: nat)
    requires -0x8000_0000 <= offset < 0x8000_0000 && len < 0x1_0000_0000
    ensures Rejected(offset, len) <==> !(0 <= offset < MAX_FILE_SIZE && offset + len < 0x8000_0000)
    ensures !Rejected(offset, len) ==> EndPos(offset, len) == offset + len
  {
  }

  /** The first checks of sfs_io_nolock: a request is refused, or it ends where it asks, but at the file limit at the latest. */
  method CheckRange(offset: int, len: nat) returns (rejected: bool, endpos: int)
    requires -0x8000_0000 <= offset < 0x8000_0000 && len < 0x1_0000_0000
    ensures rejected <==> Rejected(offset, len)
    ensures !rejected ==> offset <= endpos <= offset + len && endpos <= MAX_FILE_SIZE && (endpos == offset + len || endpos == MAX_FILE_SIZE)
    ensures !rejected ==> (offset == endpos <==> len == 0)
  {
    RejectedExactly(offset, len);
    endpos := EndPos(offset, len);
    if offset < 0 || offset >= MAX_FILE_SIZE || offset > endpos { return true, 0; }
    rejected := false;
    if endpos > MAX_FILE_SIZE { endpos := MAX_FILE_SIZE; }
  }

  /** `fs'` is `fs` with `d` written to file `ino` at `offset`, the size included. */
  ghost predicate Written(fs: Fs, fs': Fs, ino: nat, offset: nat, d: seq<Byte>) {
    && ino in fs.files && ino in fs'.files && fs'.files[ino].size == Max(fs.files[ino].size, offset + |d|)
    && OthersSame(fs, fs', ino) && Paid(fs, fs', ino)
    && forall i: nat | i < fs'.files[ino].blocks :: Blk(fs', ino, i) == Mix(i, Base(fs, ino, i), offset, d)
  }

  /** When a write stops short, and where. */
  ghost predicate Stopped(din: Din, din': Din, offset: nat, alen: nat, len: nat, free: nat) {
    && alen <= len
    && (alen == len <==> Needed(din, CeilBlocks(offset + len)) <= free)
    && (alen == len ==> din'.blocks == Max(din.blocks, CeilBlocks(offset + len)))
    && (0 < alen < len ==> din'.blocks * BLKSIZE == offset + alen)
    && (0 == alen < len ==> din'.blocks == din.blocks && din.blocks * BLKSIZE <= offset < (din.blocks + 1) * BLKSIZE && free < NeedOne(din))
  }

  method SetSize(s: Sfs, ino: nat, size: nat)
    requires s.Valid() && ino in s.files
    modifies s`files
    ensures s.Valid() && s.View() == WithFile(old(s.View()), ino, old(s.files)[ino].(size := size))
  {
    SizeKeepsInv(s.View(), s.own, ino, size);
    s.files := s.files[ino := s.files[ino].(size := size)];
  }

  lemma {:induction false} SizedIsWritten(fs0: Fs, fs: Fs, fs': Fs, ino: nat, offset: nat, data: seq<Byte>, last: nat, ok: bool, alen: nat)
    requires WriteEnds(fs0, fs, ino, offset, data, last, ok, alen) && last == CeilBlocks(offset + |data|)
    requires fs' == WithFile(fs, ino, fs.files[ino].(size := Max(fs.files[ino].size, offset + alen)))
    ensures Written(fs0, fs', ino, offset, data[..alen])
    ensures Stopped(fs0.files[ino], fs'.files[ino], offset, alen, |data|, |fs0.free|) && (ok <==> alen == |data|)
  {
    forall j, i: nat | j in fs.files && i < fs.files[j].blocks ensures Blk(fs', j, i) == Blk(fs, j, i) { }
  }

  /** sfs_io_nolock for writing. A block beyond the map must not be reached, and neither a hole of whole blocks. */
  method Write(s: Sfs, ino: nat, buf: seq<Byte>, offset: int) returns (ret: Ret, alen: nat)
    requires s.Valid() && ino in s.files && -0x8000_0000 <= offset < 0x8000_0000 && |buf| < 0x1_0000_0000
    requires !Rejected(offset, |buf|) && buf != [] ==>
      offset / BLKSIZE <= s.files[ino].blocks && CeilBlocks(offset + |buf|) <= MAX_BLOCKS
    modifies s, s.freemap.words
    ensures s.Valid() && alen <= |buf|
    ensures ret == Inval <==> Rejected(offset, |buf|)
    ensures Rejected(offset, |buf|) || buf == [] ==> s.View() == old(s.View()) && alen == 0 && (ret == Ok || ret == Inval)
    ensures !Rejected(offset, |buf|) && buf != [] ==>
      && Written(old(s.View()), s.View(), ino, offset, buf[..alen])
      && Stopped(old(s.files)[ino], s.files[ino], offset, alen, |buf|, |old(s.View()).free|)
      && (ret == Ok <==> alen == |buf|)
      && (ret == Ok <==> Needed(old(s.files)[ino], CeilBlocks(offset + |buf|)) <= |old(s.View()).free|)
  {
    hide Inv, FileOk, Space;
    RejectedExactly(offset, |buf|);
    var rejected, endpos := CheckRange(offset, |buf|);
    alen := 0;
    if rejected { return Inval, 0; }
    if offset == endpos { return Ok, 0; }
    ghost var fs0 := s.View();
    var data := buf[..endpos - offset];
    var ok;
    ok, alen := WriteBody(s, ino, data, offset);
    ghost var fs := s.View();
    SetSize(s, ino, Max(s.files[ino].size, offset + alen));
    SizedIsWritten(fs0, fs, s.View(), ino, offset, data, CeilBlocks(offset + |data|), ok, alen);
    assert data[..alen] == buf[..alen];
    ret := if ok then Ok else NoMem;
  }

  // ---------- Read ----------

  /** The blocks of a file reach at least to its size. A write that stops short can leave a file for which they do not. */
  predicate Sized(din: Din) { din.size <= din.blocks * BLKSIZE }

  /** `n` bytes of a file from `offset` on, zero where it has no blocks. */
  ghost function Slice(fs: Fs, ino: nat, offset: nat, n: nat): (r: seq<Byte>)
    requires ino in fs.files
    ensures |r| == n
  {
    seq(n, k requires 0 <= k < n => Base(fs, ino, (offset + k) / BLKSIZE)[(offset + k) % BLKSIZE])
  }

  ghost function Content(fs: Fs, ino: nat): seq<Byte>
    requires ino in fs.files
  {
    Slice(fs, ino, 0, fs.files[ino].size)
  }

  lemma {:induction false} ContentAt(fs: Fs, ino: nat, p: nat)
    requires ino in fs.files && p < fs.files[ino].size
    ensures Content(fs, ino)[p] == Base(fs, ino, p / BLKSIZE)[p % BLKSIZE]
  {
  }

  /** Files with the same size and the same blocks have the same content. */
  lemma {:induction false} SameContent(fs: Fs, fs': Fs, j: nat)
    requires j in fs.files && j in fs'.files && fs'.files[j].size == fs.files[j].size
    requires forall i: nat :: Base(fs', j, i) == Base(fs, j, i)
    ensures Content(fs', j) == Content(fs, j)
  {
    forall p: nat | p < fs.files[j].size ensures Content(fs', j)[p] == Content(fs, j)[p] {
      ContentAt(fs, j, p);
      ContentAt(fs', j, p);
    }
  }

  lemma {:induction false} OthersContent(fs: Fs, fs': Fs, ino: nat, j: nat)
    requires OthersSame(fs, fs', ino) && j in fs.files && j != ino
    ensures j in fs'.files && Content(fs', j) == Content(fs, j)
  {
    forall i: nat ensures Base(fs', j, i) == Base(fs, j, i) { }
    SameContent(fs, fs', j);
  }

  lemma {:induction false} SliceGrows(fs: Fs, ino: nat, offset: nat, n: nat, i: nat, off: nat, size: nat)
    requires ino in fs.files && i * BLKSIZE + off == offset + n && off + size <= BLKSIZE
    ensures Slice(fs, ino, offset, n) + Base(fs, ino, i)[off..off + size] == Slice(fs, ino, offset, n + size)
  {
    var r := Slice(fs, ino, offset, n + size);
    forall m | n <= m < n + size ensures r[m] == Base(fs, ino, i)[off + m - n] {
      assert (offset + m) / BLKSIZE == i && (offset + m) % BLKSIZE == off + m - n;
    }
  }

  /** A read under way, which has come to block `blkno`. Blocks that are missing are made, as for a write. */
  ghost predicate Reading(fs0: Fs, fs: Fs, ino: nat, offset: nat, got: seq<Byte>, blkno: nat) {
    && ino in fs0.files && ino in fs.files && Resized(fs0, fs, ino) && Paid(fs0, fs, ino) && got == Slice(fs0, ino, offset, |got|)
    && fs.files[ino].blocks == Max(fs0.files[ino].blocks, blkno) && (blkno <= fs0.files[ino].blocks ==> fs == fs0)
  }

  /** What is known when a read of `n` bytes, which end in the block before `last`, ends. */
  ghost predicate ReadEnds(fs0: Fs, fs: Fs, ino: nat, offset: nat, n: nat, last: nat, ok: bool, r: seq<Byte>) {
    && ino in fs0.files && ino in fs.files && Resized(fs0, fs, ino) && Paid(fs0, fs, ino) && |r| <= n && r == Slice(fs0, ino, offset, |r|)
    && (ok <==> Needed(fs0.files[ino], last) <= |fs0.free|) && (ok <==> |r| == n)
    && (ok ==> fs.files[ino].blocks == Max(fs0.files[ino].blocks, last))
    && (!ok ==> |fs.free| < NeedOne(fs.files[ino]) && fs.files[ino].blocks == Max(fs0.files[ino].blocks, (offset + |r|) / BLKSIZE))
    && (last <= fs0.files[ino].blocks ==> fs == fs0)
  }

  /** The block that is read next is block `blkno` of the file as it was, and zero if it was missing. */
  lemma {:induction false} NextRead(fs0: Fs, fs: Fs, own: map<nat, Owner>, fs': Fs, own': map<nat, Owner>, ino: nat, offset: nat, got: seq<Byte>, blkno: nat, b: nat)
    requires Reading(fs0, fs, ino, offset, got, blkno) && Inv(fs, own) && Inv(fs', own') && OwnedBy(own', b, Data(ino, blkno)) && b < |fs'.disk|
    requires if blkno < fs.files[ino].blocks then fs' == fs && own' == own else Appended(fs, own, fs', own', ino, b)
    ensures Resized(fs0, fs', ino) && Paid(fs0, fs', ino) && fs'.files[ino].blocks == Max(fs0.files[ino].blocks, blkno + 1)
    ensures blkno + 1 <= fs0.files[ino].blocks ==> fs' == fs0
    ensures fs'.disk[b] == Base(fs0, ino, blkno)
  {
    BlockOfOwner(fs', own', b, ino, blkno);
    if blkno == fs.files[ino].blocks { GrowthResizes(fs0, fs, own, fs', own', ino, b); }
    assert blkno < fs'.files[ino].blocks && Blk(fs', ino, blkno) == Base(fs0, ino, blkno);
  }

  /** sfs_bmap_load_nolock and then sfs_rbuf; sfs_rblock reads a whole block in the same way. */
  method ReadNext(s: Sfs, ino: nat, blkno: nat, off: nat, size: nat, offset: nat, got: seq<Byte>, ghost fs0: Fs) returns (ok: bool, r: seq<Byte>)
    requires s.Valid() && Reading(fs0, s.View(), ino, offset, got, blkno) && blkno < MAX_BLOCKS && off + size <= BLKSIZE
    requires blkno * BLKSIZE + off == offset + |got|
    modifies s, s.freemap.words
    ensures s.Valid()
    ensures ok ==> |r| == |got| + size && Reading(fs0, s.View(), ino, offset, r, blkno + 1)
    ensures !ok ==> r == got && ino in s.files && Resized(fs0, s.View(), ino) && Paid(fs0, s.View(), ino) && |s.View().free| < NeedOne(s.files[ino])
    ensures !ok ==> fs0.files[ino].blocks <= blkno == s.files[ino].blocks
  {
    hide Inv, FileOk, Space, Resized, Paid, Slice;
    ghost var fs, own := s.View(), s.own;
    var b;
    ok, b := s.BmapLoad(ino, blkno);
    if !ok {
      FailureResizes(fs0, fs, own, s.View(), ino);
      return ok, got;
    }
    BlockThere(s.View(), s.own, b, Data(ino, blkno));
    NextRead(fs0, fs, own, s.View(), s.own, ino, offset, got, blkno, b);
    var chunk := s.Rbuf(size, b, off);
    SliceGrows(fs0, ino, offset, |got|, blkno, off, size);
    r := got + chunk;
  }

  lemma {:induction false} BlockThere(fs: Fs, own: map<nat, Owner>, b: nat, o: Owner)
    requires Inv(fs, own) && OwnedBy(own, b, o) && o != Meta
    ensures 0 < b < fs.nblocks == |fs.disk|
  {
  }

  lemma {:induction false} ReadStarts(fs: Fs, ino: nat, offset: nat)
    requires ino in fs.files && offset / BLKSIZE <= fs.files[ino].blocks
    ensures Reading(fs, fs, ino, offset, [], offset / BLKSIZE)
  {
    LaidNothing(fs, ino, 0);
    LaidIsResized(fs, fs, ino);
  }

  lemma {:induction false} ReadStops(fs0: Fs, fs: Fs, ino: nat, offset: nat, n: nat, last: nat, r: seq<Byte>)
    requires ino in fs0.files && ino in fs.files && Resized(fs0, fs, ino) && Paid(fs0, fs, ino) && |r| < n && r == Slice(fs0, ino, offset, |r|)
    requires |fs.free| < NeedOne(fs.files[ino]) && fs0.files[ino].blocks <= (offset + |r|) / BLKSIZE == fs.files[ino].blocks < last
    ensures ReadEnds(fs0, fs, ino, offset, n, last, false, r)
  {
    NotEnough(fs0, fs, ino, last);
  }

  lemma {:induction false} ReadCompletes(fs0: Fs, fs: Fs, ino: nat, offset: nat, n: nat, last: nat, r: seq<Byte>)
    requires Reading(fs0, fs, ino, offset, r, last) && |r| == n
    ensures ReadEnds(fs0, fs, ino, offset, n, last, true, r)
  {
    PaidInFull(fs0, fs, ino);
  }

  /** The loop of sfs_io_nolock over whole blocks. */
  method ReadWhole(s: Sfs, ino: nat, blkno0: nat, nblks0: nat, offset: nat, got: seq<Byte>, ghost fs0: Fs) returns (ok: bool, r: seq<Byte>)
    requires s.Valid() && Reading(fs0, s.View(), ino, offset, got, blkno0) && blkno0 * BLKSIZE == offset + |got| && blkno0 + nblks0 <= MAX_BLOCKS
    modifies s, s.freemap.words
    ensures s.Valid()
    ensures ok ==> Reading(fs0, s.View(), ino, offset, r, blkno0 + nblks0) && |r| == |got| + nblks0 * BLKSIZE
    ensures !ok ==> ino in fs0.files && ino in s.files && Resized(fs0, s.View(), ino) && Paid(fs0, s.View(), ino) && |s.View().free| < NeedOne(s.files[ino]) && r == Slice(fs0, ino, offset, |r|)
    ensures !ok ==> |r| < |got| + nblks0 * BLKSIZE && fs0.files[ino].blocks <= (offset + |r|) / BLKSIZE == s.files[ino].blocks < blkno0 + nblks0
  {
    hide Resized, Paid, Slice, Inv, Space, FileOk, NeedOne;
    var blkno, nblks := blkno0, nblks0;
    r := got;
    while nblks != 0
      invariant nblks >= 0 && blkno >= 0 && blkno + nblks == blkno0 + nblks0
      invariant s.Valid() && Reading(fs0, s.View(), ino, offset, r, blkno) && blkno * BLKSIZE == offset + |r|
    {
      ok, r := ReadNext(s, ino, blkno, 0, BLKSIZE, offset, r, fs0);
      if !ok { return; }
      blkno, nblks := blkno + 1, nblks - 1;
    }
    ok := true;
  }

  /** The whole blocks and the part of the last one. */
  method ReadRest(s: Sfs, ino: nat, blkno: nat, nblks: nat, rest: nat, offset: nat, got: seq<Byte>, ghost fs0: Fs, ghost n: nat, ghost last: nat)
      returns (ok: bool, r: seq<Byte>)
    requires s.Valid() && Reading(fs0, s.View(), ino, offset, got, blkno) && blkno * BLKSIZE == offset + |got| && last <= MAX_BLOCKS
    requires rest < BLKSIZE && |got| + nblks * BLKSIZE + rest == n && last == blkno + nblks + if rest > 0 then 1 else 0
    modifies s, s.freemap.words
    ensures s.Valid() && ReadEnds(fs0, s.View(), ino, offset, n, last, ok, r)
  {
    hide Resized, Paid, Slice, ReadEnds, Inv, Space, FileOk;
    ok, r := ReadWhole(s, ino, blkno, nblks, offset, got, fs0);
    if ok && rest != 0 { ok, r := ReadNext(s, ino, blkno + nblks, 0, rest, offset, r, fs0); }
    if ok { ReadCompletes(fs0, s.View(), ino, offset, n, last, r); } else { ReadStops(fs0, s.View(), ino, offset, n, last, r); }
  }

  /** sfs_io_nolock for reading, between its checks and its end. */
  method ReadBody(s: Sfs, ino: nat, offset: nat, endpos: nat) returns (ok: bool, r: seq<Byte>)
    requires s.Valid() && ino in s.files && offset < endpos && offset / BLKSIZE <= s.files[ino].blocks && CeilBlocks(endpos) <= MAX_BLOCKS
    modifies s, s.freemap.words
    ensures s.Valid() && ReadEnds(old(s.View()), s.View(), ino, offset, endpos - offset, CeilBlocks(endpos), ok, r)
  {
    hide Resized, Paid, Slice, ReadEnds, Inv, Space, FileOk;
    LastBlockOf(offset, endpos - offset);
    ghost var fs0, n, last := s.View(), endpos - offset, CeilBlocks(endpos);
    var blkno, nblks, blkoff := offset / BLKSIZE, endpos / BLKSIZE - offset / BLKSIZE, offset % BLKSIZE;
    r := [];
    ReadStarts(fs0, ino, offset);
    if blkoff != 0 {
      var size := if nblks != 0 then BLKSIZE - blkoff else endpos - offset;
      ok, r := ReadNext(s, ino, blkno, blkoff, size, offset, r, fs0);
      if !ok { ReadStops(fs0, s.View(), ino, offset, n, last, r); return; }
      if nblks == 0 { ReadCompletes(fs0, s.View(), ino, offset, n, last, r); return; }
      blkno, nblks := blkno + 1, nblks - 1;
    }
    ok, r := ReadRest(s, ino, blkno, nblks, endpos % BLKSIZE, offset, r, fs0, n, last);
  }

  /** sfs_io_nolock for reading: the bytes of the file from `offset` on, as far as they are asked for and there. If the file has
      fewer blocks than its size says, the missing ones are made, and the read stops short if there are none left. */
  method Read(s: Sfs, ino: nat, offset: int, len: nat) returns (ret: Ret, r: seq<Byte>)
    requires s.Valid() && ino in s.files && -0x8000_0000 <= offset < 0x8000_0000 && len < 0x1_0000_0000
    requires !Rejected(offset, len) && len > 0 && offset < s.files[ino].size ==>
      offset / BLKSIZE <= s.files[ino].blocks && (CeilBlocks(offset + len) <= MAX_BLOCKS || CeilBlocks(s.files[ino].size) <= MAX_BLOCKS)
    modifies s, s.freemap.words
    ensures s.Valid()
    ensures ret == Inval <==> Rejected(offset, len)
    ensures Rejected(offset, len) || len == 0 || offset >= old(s.files)[ino].size ==>
      s.View() == old(s.View()) && r == [] && (ret == Ok || ret == Inval)
    ensures !Rejected(offset, len) && len > 0 && offset < old(s.files)[ino].size ==>
      var size := old(s.files)[ino].size;
      var end := if offset + len < size then offset + len else size;
      && ReadEnds(old(s.View()), s.View(), ino, offset, end - offset, CeilBlocks(end), ret == Ok, r)
      && (ret == Ok <==> Needed(old(s.files)[ino], CeilBlocks(end)) <= |old(s.View()).free|)
      && (ret == Ok ==> |r| == if offset + len < size then len else size - offset)
  {
    hide Inv, FileOk, Space, ReadEnds, Slice, Needed;
    RejectedExactly(offset, len);
    BelowTheLimit(offset + len);
    BelowTheLimit(s.files[ino].size);
    var rejected, endpos := CheckRange(offset, len);
    if rejected { return Inval, []; }
    if offset == endpos { return Ok, []; }
    if offset >= s.files[ino].size { return Ok, []; }
    if endpos > s.files[ino].size { endpos := s.files[ino].size; }
    ghost var fs := s.View();
    var ok;
    ok, r := ReadBody(s, ino, offset, endpos);
    ReadWhenOk(fs, s.View(), ino, offset, endpos - offset, CeilBlocks(endpos), ok, r);
    ret := if ok then Ok else NoMem;
  }

  /** What the block maps can hold lies below the file limit. */
  lemma {:induction false} BelowTheLimit(n: int)
    ensures 0 <= n && CeilBlocks(n) <= MAX_BLOCKS ==> n < MAX_FILE_SIZE
  {
  }

  lemma {:induction false} ReadWhenOk(fs0: Fs, fs: Fs, ino: nat, offset: nat, n: nat, last: nat, ok: bool, r: seq<Byte>)
    requires ReadEnds(fs0, fs, ino, offset, n, last, ok, r)
    ensures ino in fs0.files && (ok <==> Needed(fs0.files[ino], last) <= |fs0.free|) && (ok <==> |r| == n)
  {
  }

  lemma {:induction false} SliceOfContent(fs: Fs, ino: nat, offset: nat, n: nat)
    requires ino in fs.files && offset + n <= fs.files[ino].size
    ensures Slice(fs, ino, offset, n) == Content(fs, ino)[offset..offset + n]
  {
  }

  /** What a read returns is a part of the content, all that was asked for if there were blocks enough; the content stays what it
      is. For a file whose blocks reach to its size nothing at all changes. */
  lemma {:induction false} ReadIsFlat(fs: Fs, fs': Fs, ino: nat, offset: nat, end: nat, ok: bool, r: seq<Byte>)
    requires offset <= end && ReadEnds(fs, fs', ino, offset, end - offset, CeilBlocks(end), ok, r) && end <= fs.files[ino].size
    ensures r == Content(fs, ino)[offset..offset + |r|] && (ok <==> offset + |r| == end)
    ensures Content(fs', ino) == Content(fs, ino)
    ensures Sized(fs.files[ino]) ==> ok && fs' == fs
  {
    SliceOfContent(fs, ino, offset, |r|);
    forall i: nat ensures Base(fs', ino, i) == Base(fs, ino, i) { }
    SameContent(fs, fs', ino);
  }

  // ---------- The flat file ----------

  lemma {:induction false} MixAt(i: nat, b: Block, offset: nat, d: seq<Byte>, p: nat)
    requires p / BLKSIZE == i
    ensures Mix(i, b, offset, d)[p % BLKSIZE] == if offset <= p < offset + |d| then d[p - offset] else b[p % BLKSIZE]
  {
    assert i * BLKSIZE + p % BLKSIZE == p;
  }

  /** Whatever is written lies in blocks. */
  lemma {:induction false} BeyondTheBlocks(din: Din, din': Din, offset: nat, alen: nat, len: nat, free: nat, p: nat)
    requires Stopped(din, din', offset, alen, len, free) && din'.blocks >= din.blocks && p / BLKSIZE >= din'.blocks
    ensures !(offset <= p < offset + alen)
  {
  }

  /** A write, complete or cut short, puts its first bytes over the old content, and touches no other file. */
  lemma {:induction false} WriteIsFlat(fs: Fs, fs': Fs, ino: nat, offset: nat, d: seq<Byte>, len: nat)
    requires Written(fs, fs', ino, offset, d) && Stopped(fs.files[ino], fs'.files[ino], offset, |d|, len, |fs.free|)
    requires offset <= fs.files[ino].size
    ensures Sized(fs.files[ino]) ==> Sized(fs'.files[ino])
    ensures var old' := Content(fs, ino);
      Content(fs', ino) == old'[..offset] + d + if offset + |d| < |old'| then old'[offset + |d|..] else []
    ensures forall j | j in fs.files && j != ino :: j in fs'.files && Content(fs', j) == Content(fs, j)
  {
    var c, c' := Content(fs, ino), Content(fs', ino);
    forall p: nat | p < |c'|
      ensures c'[p] == if offset <= p < offset + |d| then d[p - offset] else if p < |c| then c[p] else c'[p]
    {
      ContentAt(fs', ino, p);
      if p < |c| { ContentAt(fs, ino, p); }
      if p / BLKSIZE < fs'.files[ino].blocks { MixAt(p / BLKSIZE, Base(fs, ino, p / BLKSIZE), offset, d, p); }
      else { BeyondTheBlocks(fs.files[ino], fs'.files[ino], offset, |d|, len, |fs.free|, p); }
    }
    forall j | j in fs.files && j != ino ensures j in fs'.files && Content(fs', j) == Content(fs, j) { OthersContent(fs, fs', ino, j); }
  }

  /** `blocks` is the size rounded up. */
  predicate Rounded(din: Din) { din.blocks == CeilBlocks(din.size) }

  /** A write keeps `blocks` the size rounded up unless it starts inside a block that does not exist and
      cannot be made: then the size grows all the same. */
  lemma {:induction false} WriteKeepsRounded(fs: Fs, fs': Fs, ino: nat, offset: nat, d: seq<Byte>, len: nat)
    requires Written(fs, fs', ino, offset, d) && Stopped(fs.files[ino], fs'.files[ino], offset, |d|, len, |fs.free|) && len > 0
    requires Rounded(fs.files[ino]) && offset / BLKSIZE <= fs.files[ino].blocks
    ensures var din := fs.files[ino];
      Rounded(fs'.files[ino]) <==> !(offset / BLKSIZE == din.blocks && offset % BLKSIZE != 0 && |fs.free| < NeedOne(din))
  {
    var din, din' := fs.files[ino], fs'.files[ino];
    LastBlockOf(offset, len);
    if offset / BLKSIZE == din.blocks && |fs.free| < NeedOne(din) { assert d == []; }
  }

  function NoBlocks(): seq<nat> { seq(NDIRECT, _ => 0) }

  /** A disk that holds one empty file, number 7, and whose first block, of `n`, is not for files. */
  ghost function EmptyFile(n: nat): Fs
    requires 1 <= n <= 2
  {
    Fs(n, if n == 2 then {1} else {}, n - 1, if n == 2 then [Zeroes(), Zeroes()] else [Zeroes()], map[7 := Din(0, 0, NoBlocks(), 0)])
  }

  lemma {:induction false} EmptyFileIsSound(n: nat)
    requires 1 <= n <= 2
    ensures Inv(EmptyFile(n), map[0 := Meta])
  {
    assert forall i: nat | i < MAX_BLOCKS :: EntryOk(EmptyFile(n), map[0 := Meta], 7, i);
  }

  /** With no free block, one byte written at offset one of the empty file is not written, but the size is one. */
  lemma {:induction false} RoundingCanFail()
    ensures var fs := EmptyFile(1); var fs' := WithFile(fs, 7, Din(1, 0, NoBlocks(), 0));
      && Inv(fs, map[0 := Meta]) && Inv(fs', map[0 := Meta])
      && Written(fs, fs', 7, 1, []) && Stopped(fs.files[7], fs'.files[7], 1, 0, 1, |fs.free|)
      && Rounded(fs.files[7]) && !Rounded(fs'.files[7])
  {
    EmptyFileIsSound(1);
    SizeKeepsInv(EmptyFile(1), map[0 := Meta], 7, 1);
  }

  // ---------- Write and read ----------

  lemma {:induction false} ByteIsThere(fs: Fs, fs': Fs, ino: nat, offset: nat, d: seq<Byte>, len: nat, p: nat)
    requires Written(fs, fs', ino, offset, d) && Stopped(fs.files[ino], fs'.files[ino], offset, |d|, len, |fs.free|)
    requires offset <= p < offset + |d|
    ensures p / BLKSIZE < fs'.files[ino].blocks && Base(fs', ino, p / BLKSIZE)[p % BLKSIZE] == d[p - offset]
  {
    var i := p / BLKSIZE;
    MixAt(i, Base(fs, ino, i), offset, d, p);
    assert Base(fs', ino, i) == Mix(i, Base(fs, ino, i), offset, d);
  }

  /** What has been written lies in blocks, and is there. */
  lemma {:induction false} WrittenIsThere(fs: Fs, fs': Fs, ino: nat, offset: nat, d: seq<Byte>, len: nat)
    requires Written(fs, fs', ino, offset, d) && Stopped(fs.files[ino], fs'.files[ino], offset, |d|, len, |fs.free|)
    ensures ino in fs.files && ino in fs'.files && Slice(fs', ino, offset, |d|) == d
    ensures d != [] ==> Needed(fs'.files[ino], CeilBlocks(offset + |d|)) == 0
    ensures fs'.files[ino].size >= offset + |d| && fs'.files[ino].blocks >= fs.files[ino].blocks && |d| <= len
    ensures |d| == len <==> Needed(fs.files[ino], CeilBlocks(offset + len)) <= |fs.free|
  {
    if d != [] { ByteIsThere(fs, fs', ino, offset, d, len, offset + |d| - 1); }
    var r := Slice(fs', ino, offset, |d|);
    forall k: nat | k < |d| ensures r[k] == d[k] { ByteIsThere(fs, fs', ino, offset, d, len, offset + k); }
  }

  lemma {:induction false} ReadGives(fs: Fs, fs': Fs, ino: nat, offset: nat, last: nat, ok: bool, d: seq<Byte>, r: seq<Byte>)
    requires ino in fs.files && ReadEnds(fs, fs', ino, offset, |d|, last, ok, r) && Slice(fs, ino, offset, |d|) == d && |r| == |d|
    ensures r == d
  {
  }

  /** A write, and a read of as many bytes as were written, at any offset that a write accepts: the bytes come back, all of
      them if there were blocks enough. */
  method WriteThenRead(s: Sfs, ino: nat, buf: seq<Byte>, offset: int) returns (ret: Ret, r: seq<Byte>)
    requires s.Valid() && ino in s.files && -0x8000_0000 <= offset < 0x8000_0000 && |buf| < 0x1_0000_0000 && buf != [] && !Rejected(offset, |buf|)
    requires offset / BLKSIZE <= s.files[ino].blocks && CeilBlocks(offset + |buf|) <= MAX_BLOCKS
    modifies s, s.freemap.words
    ensures s.Valid() && ret == Ok && r <= buf
    ensures Needed(old(s.files)[ino], CeilBlocks(offset + |buf|)) <= |old(s.View()).free| ==> r == buf
  {
    hide Inv, FileOk, Space, Written, Stopped, Needed, Slice, ReadEnds;
    RejectedExactly(offset, |buf|);
    ghost var fs := s.View();
    var alen;
    ret, alen := Write(s, ino, buf, offset);
    ghost var fs' := s.View();
    WrittenIsThere(fs, fs', ino, offset, buf[..alen], |buf|);
    RejectedExactly(offset, alen);
    ret, r := Read(s, ino, offset, alen);
    if alen > 0 { ReadGives(fs', s.View(), ino, offset, CeilBlocks(offset + alen), true, buf[..alen], r); }
  }

  // ---------- Truncate ----------

  /** The file `ino` has other blocks at its end, and the rest is what it was. */
  ghost predicate Resized(fs: Fs, fs': Fs, ino: nat) {
    && ino in fs.files && ino in fs'.files && OthersSame(fs, fs', ino) && fs'.files[ino].size == fs.files[ino].size
    && forall i: nat | i < fs'.files[ino].blocks :: Blk(fs', ino, i) == Base(fs, ino, i)
  }

  lemma {:induction false} LaidIsResized(fs: Fs, fs': Fs, ino: nat)
    requires Laid(fs, fs', ino, 0, [])
    ensures Resized(fs, fs', ino)
  {
    forall i: nat | i < fs'.files[ino].blocks ensures Blk(fs', ino, i) == Base(fs, ino, i) { MixNothing(i, Base(fs, ino, i), 0, []); }
  }

  lemma {:induction false} ResizedIsLaid(fs: Fs, fs': Fs, ino: nat)
    requires Resized(fs, fs', ino) && Paid(fs, fs', ino)
    ensures Laid(fs, fs', ino, 0, [])
  {
    forall i: nat | i < fs'.files[ino].blocks ensures Blk(fs', ino, i) == Mix(i, Base(fs, ino, i), 0, []) { MixNothing(i, Base(fs, ino, i), 0, []); }
  }

  lemma {:induction false} GrowthResizes(fs0: Fs, fs: Fs, own: map<nat, Owner>, fs': Fs, own': map<nat, Owner>, ino: nat, b: nat)
    requires Resized(fs0, fs, ino) && Paid(fs0, fs, ino) && Inv(fs, own) && Inv(fs', own') && Appended(fs, own, fs', own', ino, b)
    ensures Resized(fs0, fs', ino) && Paid(fs0, fs', ino)
  {
    PaidTwice(fs0, fs, fs', ino);
    BlockOfOwner(fs', own', b, ino, fs.files[ino].blocks);
    assert FileOk(fs, own, ino);
    forall j, i: nat | j in fs.files && i < fs.files[j].blocks ensures Blk(fs', j, i) == Blk(fs, j, i) {
      BlkKept(fs, own, fs', own', Data(ino, fs.files[ino].blocks), j, i);
    }
  }

  lemma {:induction false} FailureResizes(fs0: Fs, fs: Fs, own: map<nat, Owner>, fs': Fs, ino: nat)
    requires Resized(fs0, fs, ino) && Paid(fs0, fs, ino) && Inv(fs, own) && Inv(fs', own) && Untouched(fs, fs')
    ensures Resized(fs0, fs', ino) && Paid(fs0, fs', ino)
  {
    ResizedIsLaid(fs0, fs, ino);
    UntouchedLaid(fs0, fs, own, fs', ino, 0, []);
    LaidIsResized(fs0, fs', ino);
  }

  lemma {:induction false} ShrinkingResizes(fs0: Fs, fs: Fs, own: map<nat, Owner>, fs': Fs, own': map<nat, Owner>, ino: nat)
    requires Resized(fs0, fs, ino) && Inv(fs, own) && Inv(fs', own') && 0 < fs.files[ino].blocks <= fs0.files[ino].blocks
    requires Dropped(fs, own, fs', own', ino)
    ensures Resized(fs0, fs', ino)
  {
    forall j, i: nat | j in fs.files && i < fs.files[j].blocks && !(j == ino && i == fs.files[ino].blocks - 1)
      ensures Blk(fs', j, i) == Blk(fs, j, i)
    {
      BlkKept(fs, own, fs', own', Data(ino, fs.files[ino].blocks - 1), j, i);
    }
  }

  lemma {:induction false} PaidInFull(fs0: Fs, fs: Fs, ino: nat)
    requires ino in fs0.files && ino in fs.files && Paid(fs0, fs, ino)
    ensures Needed(fs0.files[ino], fs.files[ino].blocks) <= |fs0.free|
  {
  }

  /** The loop of sfs_truncfile that makes blocks. */
  method Grow(s: Sfs, ino: nat, tblks: nat) returns (ok: bool)
    requires s.Valid() && ino in s.files && s.files[ino].blocks <= tblks <= MAX_BLOCKS
    modifies s, s.freemap.words
    ensures s.Valid() && Resized(old(s.View()), s.View(), ino) && Paid(old(s.View()), s.View(), ino)
    ensures ok <==> Needed(old(s.files)[ino], tblks) <= |old(s.View()).free|
    ensures if ok then s.files[ino].blocks == tblks else s.files[ino].blocks < tblks && |s.View().free| < NeedOne(s.files[ino])
  {
    hide Inv, FileOk, Space;
    ghost var fs0 := s.View();
    var nblks := s.files[ino].blocks;
    while nblks != tblks
      invariant s.Valid() && Resized(fs0, s.View(), ino) && Paid(fs0, s.View(), ino) && nblks == s.files[ino].blocks <= tblks
    {
      ghost var fs, own := s.View(), s.own;
      var b;
      ok, b := s.BmapLoad(ino, nblks);
      if !ok {
        FailureResizes(fs0, fs, own, s.View(), ino);
        NotEnough(fs0, fs, ino, tblks);
        return;
      }
      GrowthResizes(fs0, fs, own, s.View(), s.own, ino, b);
      nblks := nblks + 1;
    }
    PaidInFull(fs0, s.View(), ino);
    ok := true;
  }

  /** The loop of sfs_truncfile that frees blocks. */
  method Shrink(s: Sfs, ino: nat, tblks: nat)
    requires s.Valid() && ino in s.files && tblks <= s.files[ino].blocks
    modifies s, s.freemap.words
    ensures s.Valid() && Resized(old(s.View()), s.View(), ino) && s.files[ino].blocks == tblks
    ensures |s.View().free| == |old(s.View()).free| + (old(s.files)[ino].blocks - tblks)
  {
    hide Inv, FileOk, Space;
    ghost var fs0 := s.View();
    var nblks := s.files[ino].blocks;
    while tblks != nblks
      invariant s.Valid() && Resized(fs0, s.View(), ino) && tblks <= nblks == s.files[ino].blocks <= fs0.files[ino].blocks
      invariant |s.View().free| == |fs0.free| + (fs0.files[ino].blocks - nblks)
    {
      ghost var fs, own := s.View(), s.own;
      s.BmapTruncate(ino);
      ShrinkingResizes(fs0, fs, own, s.View(), s.own, ino);
      nblks := nblks - 1;
    }
  }

  /** `fs'` is `fs` after the file `ino` has been cut or stretched to `len`. */
  ghost predicate Truncated(fs: Fs, fs': Fs, ino: nat, len: nat) {
    && ino in fs.files && ino in fs'.files && OthersSame(fs, fs', ino)
    && fs'.files[ino].size == len && fs'.files[ino].blocks == CeilBlocks(len)
    && forall i: nat | i < CeilBlocks(len) :: Blk(fs', ino, i) == Base(fs, ino, i)
  }

  lemma {:induction false} ResizedIsTruncated(fs: Fs, mid: Fs, fs': Fs, ino: nat, len: nat)
    requires Resized(fs, mid, ino) && mid.files[ino].blocks == CeilBlocks(len) && fs' == WithFile(mid, ino, mid.files[ino].(size := len))
    ensures Truncated(fs, fs', ino, len)
  {
    forall j, i: nat | j in mid.files && i < mid.files[j].blocks ensures Blk(fs', j, i) == Blk(mid, j, i) { }
  }

  /** sfs_truncfile. With a size that is asked for already, it asserts that the blocks are the size rounded up. */
  method Truncfile(s: Sfs, ino: nat, len: int) returns (ret: Ret)
    requires s.Valid() && ino in s.files
    requires 0 <= len <= MAX_FILE_SIZE ==> CeilBlocks(len) <= MAX_BLOCKS && (s.files[ino].size == len ==> Rounded(s.files[ino]))
    modifies s, s.freemap.words
    ensures s.Valid()
    ensures ret == Inval <==> !(0 <= len <= MAX_FILE_SIZE)
    ensures ret == Inval ==> s.View() == old(s.View())
    ensures ret == Ok ==> Truncated(old(s.View()), s.View(), ino, len)
    ensures 0 <= len <= MAX_FILE_SIZE ==> (ret == Ok <==> Needed(old(s.files)[ino], CeilBlocks(len)) <= |old(s.View()).free|)
    ensures ret == NoMem ==> Resized(old(s.View()), s.View(), ino) && Paid(old(s.View()), s.View(), ino) && |s.View().free| < NeedOne(s.files[ino])
  {
    hide Inv, FileOk, Space;
    if len < 0 || len > MAX_FILE_SIZE { return Inval; }
    ghost var fs0 := s.View();
    var tblks := CeilBlocks(len);
    if s.files[ino].size == len {
      assert tblks == s.files[ino].blocks;
      return Ok;
    }
    if s.files[ino].blocks < tblks {
      var ok := Grow(s, ino, tblks);
      if !ok { return NoMem; }
    } else {
      Shrink(s, ino, tblks);
    }
    ghost var mid := s.View();
    SetSize(s, ino, len);
    ResizedIsTruncated(fs0, mid, s.View(), ino, len);
    ret := Ok;
  }

  /** Truncating keeps the bytes below the smaller size. */
  lemma {:induction false} TruncateIsFlat(fs: Fs, fs': Fs, ino: nat, len: nat)
    requires Truncated(fs, fs', ino, len)
    ensures Rounded(fs'.files[ino]) && Sized(fs'.files[ino]) && len <= fs'.files[ino].blocks * BLKSIZE < len + BLKSIZE
    ensures |Content(fs', ino)| == len
    ensures forall p: nat | p < len && p < fs.files[ino].size :: Content(fs', ino)[p] == Content(fs, ino)[p]
    ensures forall j | j in fs.files && j != ino :: j in fs'.files && Content(fs', j) == Content(fs, j)
  {
    forall p: nat | p < len && p < fs.files[ino].size ensures Content(fs', ino)[p] == Content(fs, ino)[p] {
      ContentAt(fs, ino, p);
      ContentAt(fs', ino, p);
      assert p / BLKSIZE < CeilBlocks(len);
    }
    forall j | j in fs.files && j != ino ensures j in fs'.files && Content(fs', j) == Content(fs, j) { OthersContent(fs, fs', ino, j); }
  }

  /** A stretch that fails leaves `blocks` the size rounded up only if not even one block could be made.
      Otherwise the assertion of a later sfs_truncfile to the same size does not hold. */
  lemma {:induction false} FailedStretchKeepsRounded(fs: Fs, fs': Fs, ino: nat)
    requires Resized(fs, fs', ino) && Paid(fs, fs', ino) && |fs'.free| < NeedOne(fs'.files[ino]) && Rounded(fs.files[ino])
    ensures Rounded(fs'.files[ino]) <==> |fs.free| < NeedOne(fs.files[ino])
  {
  }

  /** With one free block, stretching the empty file to two blocks fails and leaves one block for no bytes. */
  lemma {:induction false} StretchCanFail()
    ensures var fs, fs' := EmptyFile(2), Fs(2, {}, 0, [Zeroes(), Zeroes()], map[7 := Din(0, 1, NoBlocks()[0 := 1], 0)]);
      && Inv(fs, map[0 := Meta]) && Inv(fs', map[0 := Meta, 1 := Data(7, 0)])
      && Needed(fs.files[7], CeilBlocks(2 * BLKSIZE)) > |fs.free|
      && Resized(fs, fs', 7) && Paid(fs, fs', 7) && |fs'.free| < NeedOne(fs'.files[7])
      && Rounded(fs.files[7]) && !Rounded(fs'.files[7])
  {
    EmptyFileIsSound(2);
    var fs' := Fs(2, {}, 0, [Zeroes(), Zeroes()], map[7 := Din(0, 1, NoBlocks()[0 := 1], 0)]);
    assert forall i: nat | i < MAX_BLOCKS :: EntryOk(fs', map[0 := Meta, 1 := Data(7, 0)], 7, i);
  }
}
