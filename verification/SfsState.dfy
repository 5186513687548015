/** The state of a simple file system: disk blocks, free blocks, inodes (fs/sfs/sfs.h), as values. */
module SfsState {
  type Byte = x: int | 0 <= x < 256

  const BLKSIZE: nat := 4096
  const NDIRECT: nat := 12
  const NENTRY: nat := 1024
  const MAX_BLOCKS: nat := 1036

  type Block = b: seq<Byte> | |b| == BLKSIZE witness seq(BLKSIZE, _ => 0)
  function Zeroes(): Block { seq(BLKSIZE, _ => 0) }

  /** A block after `data` has been copied into it at `off`. */
  function Patch(b: Block, off: nat, data: seq<Byte>): Block
    requires off + |data| <= BLKSIZE
  {
    b[..off] + data + b[off + |data|..]
  }

  /** A block number as it lies in an indirect block: four bytes, the lowest first. */
  function LittleEndian(v: nat): seq<Byte>
  {
    [v % 256, v / 0x100 % 256, v / 0x1_0000 % 256, v / 0x100_0000 % 256]
  }

  function Decode(s: seq<Byte>): nat {
    if s == [] then 0 else var b: nat := s[0]; b + 0x100 * Decode(s[1..])
  }

  function Entry(b: Block, k: nat): nat
    requires k < NENTRY
  {
    Decode(b[4 * k..4 * k + 4])
  }

  function SetEntry(b: Block, k: nat, v: nat): Block
    requires k < NENTRY
  {
    Patch(b, 4 * k, LittleEndian(v))
  }

  lemma {:induction false} DecodeFour(s: seq<Byte>)
    requires |s| == 4
    ensures var b0: nat, b1: nat, b2: nat, b3: nat := s[0], s[1], s[2], s[3];
            Decode(s) == b0 + 0x100 * b1 + 0x1_0000 * b2 + 0x100_0000 * b3
  {
    assert Decode(s) == s[0] as nat + 0x100 * Decode(s[1..]);
    assert Decode(s[1..]) == s[1] as nat + 0x100 * Decode(s[1..][1..]);
    assert Decode(s[1..][1..]) == s[2] as nat + 0x100 * Decode(s[1..][1..][1..]);
  }

  lemma {:induction false} Digits(v: nat)
    requires v < 0x1_0000_0000
    ensures v % 256 + 0x100 * (v / 0x100 % 256) + 0x1_0000 * (v / 0x1_0000 % 256) + 0x100_0000 * (v / 0x100_0000 % 256) == v
  {
  }

  lemma {:induction false} RoundTrip(v: nat)
    requires v < 0x1_0000_0000
    ensures Decode(LittleEndian(v)) == v
  {
    Digits(v);
    DecodeFour(LittleEndian(v));
  }

  /** Writing one entry changes that one and no other. */
  ghost predicate EntryWritten(b: Block, b': Block, k: nat, v: nat) {
    forall j: nat | j < NENTRY :: Entry(b', j) == if j == k then v else Entry(b, j)
  }

  lemma {:induction false} EntrySet(b: Block, k: nat, v: nat)
    requires k < NENTRY && v < 0x1_0000_0000
    ensures EntryWritten(b, SetEntry(b, k, v), k, v)
  {
    var b' := SetEntry(b, k, v);
    forall j: nat | j < NENTRY ensures Entry(b', j) == if j == k then v else Entry(b, j) {
      if j == k { assert b'[4 * k..4 * k + 4] == LittleEndian(v); RoundTrip(v); }
      else { assert b'[4 * j..4 * j + 4] == b[4 * j..4 * j + 4]; }
    }
  }

  /** The fields of an inode that matter here. */
  datatype Din = Din(size: nat, blocks: nat, direct: seq<nat>, indirect: nat)

  datatype Fs = Fs(nblocks: nat, free: set<nat>, unused: nat, disk: seq<Block>, files: map<nat, Din>)

  /** What a block in use is for. */
  datatype Owner = Meta | Data(ino: nat, index: nat) | Indirect(ino: nat)

  /** Counters and the free map agree. */
  ghost predicate Space(fs: Fs) {
    && 0 < fs.nblocks == |fs.disk| && fs.nblocks < 0x1_0000_0000
    && fs.unused == |fs.free| && forall b | b in fs.free :: 0 < b < fs.nblocks
  }

  /** The block number the map of a file holds at `i`; zero is none. */
  function At(disk: seq<Block>, din: Din, i: nat): nat
  {
    if i < NDIRECT then if i < |din.direct| then din.direct[i] else 0
    else if i < MAX_BLOCKS && 0 < din.indirect < |disk| then Entry(disk[din.indirect], i - NDIRECT) else 0
  }

  /** The map of a file leads to blocks that are its own up to `blocks`, and holds zero from there on. */
  ghost predicate FileOk(fs: Fs, own: map<nat, Owner>, ino: nat)
    requires ino in fs.files
  {
    && |fs.files[ino].direct| == NDIRECT && fs.files[ino].blocks <= MAX_BLOCKS
    && (fs.files[ino].indirect != 0 ==> fs.files[ino].indirect in own && own[fs.files[ino].indirect] == Indirect(ino))
    && forall i: nat | i < MAX_BLOCKS :: EntryOk(fs, own, ino, i)
  }

  ghost predicate OwnedBy(own: map<nat, Owner>, b: nat, o: Owner) { b in own && own[b] == o }

  ghost predicate EntryOk(fs: Fs, own: map<nat, Owner>, ino: nat, i: nat)
    requires ino in fs.files
  {
    if i < fs.files[ino].blocks then OwnedBy(own, At(fs.disk, fs.files[ino], i), Data(ino, i)) else At(fs.disk, fs.files[ino], i) == 0
  }

  /** Block `b` is used where its owner says. */
  ghost predicate BackOk(fs: Fs, own: map<nat, Owner>, b: nat)
    requires b in own
  {
    match own[b]
    case Meta => true
    case Data(ino, i) => ino in fs.files && i < fs.files[ino].blocks && At(fs.disk, fs.files[ino], i) == b
    case Indirect(ino) => ino in fs.files && fs.files[ino].indirect == b
  }

  /** Every block is free or has one owner, and every owner uses it. So the blocks of all files are
      pairwise different, none of them is free, and none is lost. */
  ghost predicate Inv(fs: Fs, own: map<nat, Owner>) {
    && Space(fs)
    && (forall b: nat :: b in own <==> b < fs.nblocks && b !in fs.free)
    && own[0] == Meta
    && (forall ino | ino in fs.files :: FileOk(fs, own, ino))
    && forall b | b in own :: BackOk(fs, own, b)
  }

  // ---------- What the operations on blocks do ----------

  /** sfs_block_alloc of block `b`. */
  ghost function Taken(fs: Fs, b: nat): Fs
    requires Space(fs) && b in fs.free
  {
    fs.(free := fs.free - {b}, unused := |fs.free| - 1, disk := fs.disk[b := Zeroes()])
  }

  /** How many blocks one more block of a file takes. */
  function NeedOne(din: Din): nat {
    if din.blocks >= NDIRECT && din.indirect == 0 then 2 else 1
  }

  /** The indirect block `ent` of a file as it is before it holds one more entry. */
  ghost function EntBefore(fs: Fs, din: Din, ent: nat): Block
    requires ent < |fs.disk|
  {
    if din.indirect == 0 then Zeroes() else fs.disk[ent]
  }

  /** The file `ino` after it has grown by block `b`; `ent` is its indirect block if it uses one. */
  ghost predicate Grown(fs: Fs, fs': Fs, ino: nat, b: nat, ent: nat)
    requires Space(fs) && ino in fs.files
  {
    && b in fs.free && fs'.nblocks == fs.nblocks && |fs'.disk| == |fs.disk| && fs'.unused == |fs'.free|
    && if fs.files[ino].blocks < NDIRECT then GrownDirect(fs, fs', fs.files[ino], ino, b)
       else GrownIndirect(fs, fs', fs.files[ino], ino, b, ent)
  }

  ghost predicate GrownDirect(fs: Fs, fs': Fs, din: Din, ino: nat, b: nat)
    requires b < |fs.disk|
  {
    && din.blocks < |din.direct|
    && fs'.free == fs.free - {b} && fs'.disk == fs.disk[b := Zeroes()]
    && fs'.files == fs.files[ino := din.(blocks := din.blocks + 1, direct := din.direct[din.blocks := b])]
  }

  ghost predicate GrownIndirect(fs: Fs, fs': Fs, din: Din, ino: nat, b: nat, ent: nat)
    requires b < |fs.disk| == |fs'.disk|
  {
    && 0 < ent < |fs.disk| && ent != b && NDIRECT <= din.blocks < MAX_BLOCKS
    && (if din.indirect == 0 then ent in fs.free else ent == din.indirect)
    && fs'.free == fs.free - {b} - {ent}
    && fs'.disk == fs.disk[b := Zeroes()][ent := fs'.disk[ent]] && EntryWritten(EntBefore(fs, din, ent), fs'.disk[ent], din.blocks - NDIRECT, b)
    && fs'.files == fs.files[ino := din.(blocks := din.blocks + 1, indirect := ent)]
  }

  /** The owners then. */
  ghost function OwnGrown(own: map<nat, Owner>, din: Din, ino: nat, b: nat, ent: nat): map<nat, Owner> {
    if din.blocks < NDIRECT then own[b := Data(ino, din.blocks)]
    else own[b := Data(ino, din.blocks)][ent := Indirect(ino)]
  }

  lemma {:induction false} ZeroEntry(k: nat)
    requires k < NENTRY
    ensures Entry(Zeroes(), k) == 0
  {
    var s: seq<Byte> := Zeroes()[4 * k..4 * k + 4];
    assert |s| == 4 && s[0] == 0 && s[1] == 0 && s[2] == 0 && s[3] == 0;
    DecodeFour(s);
  }

  lemma {:induction false} AtEntered(disk: seq<Block>, disk': seq<Block>, din: Din, din': Din, x: Block, n: nat, v: nat, i: nat)
    requires n < NENTRY && v < 0x1_0000_0000 && i < MAX_BLOCKS && din'.direct == din.direct && 0 < din'.indirect < |disk'|
    requires x == if din.indirect == 0 then Zeroes() else if din.indirect < |disk| then disk[din.indirect] else Zeroes()
    requires din.indirect < |disk| && EntryWritten(x, disk'[din'.indirect], n, v)
    ensures At(disk', din', i) == if i == n + NDIRECT then v else At(disk, din, i)
  {
    if i >= NDIRECT {
      ZeroEntry(i - NDIRECT);
    }
  }

  lemma {:induction false} AtSame(disk: seq<Block>, disk': seq<Block>, din: Din, din': Din, i: nat)
    requires |disk'| == |disk| && din'.direct == din.direct && din'.indirect == din.indirect
    requires din.indirect < |disk| && (din.indirect != 0 ==> disk'[din.indirect] == disk[din.indirect])
    ensures At(disk', din', i) == At(disk, din, i)
  {
  }

  /** Growing a file adds one entry to its map and touches no other entry of any file. */
  lemma {:induction false} GrownAt(fs: Fs, own: map<nat, Owner>, fs': Fs, ino: nat, b: nat, ent: nat, j: nat, i: nat)
    requires Inv(fs, own) && ino in fs.files && Grown(fs, fs', ino, b, ent) && j in fs.files && i < MAX_BLOCKS
    ensures At(fs'.disk, fs'.files[j], i) == if j == ino && i == fs.files[ino].blocks then b else At(fs.disk, fs.files[j], i)
  {
    var din := fs.files[ino];
    assert FileOk(fs, own, ino) && FileOk(fs, own, j);
    if j != ino { AtSame(fs.disk, fs'.disk, fs.files[j], fs'.files[j], i); }
    else if din.blocks >= NDIRECT {
      AtEntered(fs.disk, fs'.disk, din, fs'.files[ino], EntBefore(fs, din, ent), din.blocks - NDIRECT, b, i);
    } else if i >= NDIRECT { AtSame(fs.disk, fs'.disk, din, fs'.files[ino].(direct := din.direct), i); }
  }

  lemma {:induction false} GrownKeepsFile(fs: Fs, own: map<nat, Owner>, fs': Fs, ino: nat, b: nat, ent: nat, j: nat)
    requires Inv(fs, own) && ino in fs.files && Grown(fs, fs', ino, b, ent) && j in fs'.files
    ensures FileOk(fs', OwnGrown(own, fs.files[ino], ino, b, ent), j)
  {
    var own' := OwnGrown(own, fs.files[ino], ino, b, ent);
    assert FileOk(fs, own, ino) && FileOk(fs, own, j);
    forall i: nat | i < MAX_BLOCKS ensures EntryOk(fs', own', j, i) {
      GrownAt(fs, own, fs', ino, b, ent, j, i);
      assert EntryOk(fs, own, j, i);
    }
  }

  lemma {:induction false} GrownKeepsInv(fs: Fs, own: map<nat, Owner>, fs': Fs, ino: nat, b: nat, ent: nat)
    requires Inv(fs, own) && ino in fs.files && Grown(fs, fs', ino, b, ent)
    ensures Inv(fs', OwnGrown(own, fs.files[ino], ino, b, ent))
  {
    var own' := OwnGrown(own, fs.files[ino], ino, b, ent);
    assert FileOk(fs, own, ino);
    forall j | j in fs'.files ensures FileOk(fs', own', j) { GrownKeepsFile(fs, own, fs', ino, b, ent, j); }
    forall x | x in own' ensures BackOk(fs', own', x) {
      if x in own { assert BackOk(fs, own, x); }
      if own'[x].Data? { assert own'[x].ino in fs.files && FileOk(fs, own, own'[x].ino); GrownAt(fs, own, fs', ino, b, ent, own'[x].ino, own'[x].index); }
    }
  }

  /** The file `ino` after its last block has been freed. */
  ghost predicate Shrunk(fs: Fs, fs': Fs, ino: nat)
    requires Space(fs) && ino in fs.files && fs.files[ino].blocks > 0
  {
    && fs'.nblocks == fs.nblocks && |fs'.disk| == |fs.disk|
    && fs'.free == fs.free + {At(fs.disk, fs.files[ino], fs.files[ino].blocks - 1)} && fs'.unused == |fs'.free|
    && if fs.files[ino].blocks <= NDIRECT then ShrunkDirect(fs, fs', fs.files[ino], ino) else ShrunkIndirect(fs, fs', fs.files[ino], ino)
  }

  ghost predicate ShrunkDirect(fs: Fs, fs': Fs, din: Din, ino: nat) {
    && 0 < din.blocks <= |din.direct| && fs'.disk == fs.disk
    && fs'.files == fs.files[ino := din.(blocks := din.blocks - 1, direct := din.direct[din.blocks - 1 := 0])]
  }

  ghost predicate ShrunkIndirect(fs: Fs, fs': Fs, din: Din, ino: nat)
    requires |fs'.disk| == |fs.disk|
  {
    && 0 < din.indirect < |fs.disk| && NDIRECT < din.blocks <= MAX_BLOCKS
    && fs'.disk == fs.disk[din.indirect := fs'.disk[din.indirect]]
    && EntryWritten(fs.disk[din.indirect], fs'.disk[din.indirect], din.blocks - 1 - NDIRECT, 0)
    && fs'.files == fs.files[ino := din.(blocks := din.blocks - 1)]
  }

  lemma {:induction false} ShrunkAt(fs: Fs, own: map<nat, Owner>, fs': Fs, ino: nat, j: nat, i: nat)
    requires Inv(fs, own) && ino in fs.files && fs.files[ino].blocks > 0 && Shrunk(fs, fs', ino) && j in fs.files && i < MAX_BLOCKS
    ensures At(fs'.disk, fs'.files[j], i) == if j == ino && i == fs.files[ino].blocks - 1 then 0 else At(fs.disk, fs.files[j], i)
  {
    var din := fs.files[ino];
    assert FileOk(fs, own, ino) && FileOk(fs, own, j);
    if j != ino { AtSame(fs.disk, fs'.disk, fs.files[j], fs'.files[j], i); }
    else if din.blocks > NDIRECT {
      AtEntered(fs.disk, fs'.disk, din, fs'.files[ino], fs.disk[din.indirect], din.blocks - 1 - NDIRECT, 0, i);
    } else if i >= NDIRECT { AtSame(fs.disk, fs'.disk, din, fs'.files[ino].(direct := din.direct), i); }
  }

  lemma {:induction false} ShrunkKeepsInv(fs: Fs, own: map<nat, Owner>, fs': Fs, ino: nat)
    requires Inv(fs, own) && ino in fs.files && fs.files[ino].blocks > 0 && Shrunk(fs, fs', ino)
    ensures Inv(fs', own - {At(fs.disk, fs.files[ino], fs.files[ino].blocks - 1)})
  {
    var b := At(fs.disk, fs.files[ino], fs.files[ino].blocks - 1);
    var own' := own - {b};
    assert FileOk(fs, own, ino) && EntryOk(fs, own, ino, fs.files[ino].blocks - 1);
    forall j | j in fs'.files ensures FileOk(fs', own', j) {
      assert FileOk(fs, own, j);
      forall i: nat | i < MAX_BLOCKS ensures EntryOk(fs', own', j, i) {
        ShrunkAt(fs, own, fs', ino, j, i);
        assert EntryOk(fs, own, j, i);
      }
    }
    forall x | x in own' ensures BackOk(fs', own', x) {
      assert BackOk(fs, own, x);
      if own'[x].Data? { assert FileOk(fs, own, own'[x].ino); ShrunkAt(fs, own, fs', ino, own'[x].ino, own'[x].index); }
    }
  }

  /** Writing a data block changes no map. */
  lemma {:induction false} DataWriteKeepsInv(fs: Fs, own: map<nat, Owner>, b: nat, x: Block)
    requires Inv(fs, own) && b in own && own[b].Data?
    ensures Inv(fs.(disk := fs.disk[b := x]), own)
  {
    var fs' := fs.(disk := fs.disk[b := x]);
    forall j, i: nat | j in fs.files && i < MAX_BLOCKS
      ensures At(fs'.disk, fs.files[j], i) == At(fs.disk, fs.files[j], i)
    {
      assert FileOk(fs, own, j);
    }
    forall j | j in fs'.files ensures FileOk(fs', own, j) {
      assert FileOk(fs, own, j);
      forall i: nat | i < MAX_BLOCKS ensures EntryOk(fs', own, j, i) { assert EntryOk(fs, own, j, i); }
    }
    forall y | y in own ensures BackOk(fs', own, y) {
      assert BackOk(fs, own, y);
      if own[y].Data? { assert FileOk(fs, own, own[y].ino); }
    }
  }

  /** Neither does the size. */
  lemma {:induction false} SizeKeepsInv(fs: Fs, own: map<nat, Owner>, ino: nat, size: nat)
    requires Inv(fs, own) && ino in fs.files
    ensures Inv(fs.(files := fs.files[ino := fs.files[ino].(size := size)]), own)
  {
    var fs' := fs.(files := fs.files[ino := fs.files[ino].(size := size)]);
    forall j, i: nat | j in fs.files
      ensures At(fs'.disk, fs'.files[j], i) == At(fs.disk, fs.files[j], i)
    {
    }
    forall j | j in fs'.files ensures FileOk(fs', own, j) {
      assert FileOk(fs, own, j);
      forall i: nat | i < MAX_BLOCKS ensures EntryOk(fs', own, j, i) { assert EntryOk(fs, own, j, i); }
    }
    forall y | y in own ensures BackOk(fs', own, y) { assert BackOk(fs, own, y); }
  }

  /** Scratching a free block changes nothing that matters. */
  lemma {:induction false} FreeWriteKeepsInv(fs: Fs, own: map<nat, Owner>, fs': Fs)
    requires Inv(fs, own) && fs' == fs.(disk := fs'.disk) && |fs'.disk| == |fs.disk|
    requires forall b: nat | b < fs.nblocks && b !in fs.free :: fs'.disk[b] == fs.disk[b]
    ensures Inv(fs', own)
  {
    forall j, i: nat | j in fs.files && i < MAX_BLOCKS
      ensures At(fs'.disk, fs'.files[j], i) == At(fs.disk, fs.files[j], i)
    {
      assert FileOk(fs, own, j);
    }
    forall j | j in fs'.files ensures FileOk(fs', own, j) {
      assert FileOk(fs, own, j);
      forall i: nat | i < MAX_BLOCKS ensures EntryOk(fs', own, j, i) { assert EntryOk(fs, own, j, i); }
    }
    forall y | y in own ensures BackOk(fs', own, y) {
      assert BackOk(fs, own, y);
      if own[y].Data? { assert FileOk(fs, own, own[y].ino); }
    }
  }

  // ---------- What a user of a file sees of it ----------

  /** Every data block but `but` keeps its owner and its bytes. */
  ghost predicate DataKept(fs: Fs, own: map<nat, Owner>, fs': Fs, own': map<nat, Owner>, but: Owner) {
    forall x | x in own && own[x].Data? && own[x] != but ::
      x in own' && own'[x] == own[x] && x < |fs.disk| && x < |fs'.disk| && fs'.disk[x] == fs.disk[x]
  }

  ghost predicate OthersKept(fs: Fs, fs': Fs, ino: nat) {
    && fs'.nblocks == fs.nblocks && fs'.files.Keys == fs.files.Keys
    && forall j | j in fs.files && j != ino :: fs'.files[j] == fs.files[j]
  }

  /** The file `ino` has one more block, `b`, all zero. */
  ghost predicate Appended(fs: Fs, own: map<nat, Owner>, fs': Fs, own': map<nat, Owner>, ino: nat, b: nat)
    requires ino in fs.files
  {
    && OthersKept(fs, fs', ino) && ino in fs'.files && DataKept(fs, own, fs', own', Data(ino, fs.files[ino].blocks))
    && fs'.files[ino].size == fs.files[ino].size && fs'.files[ino].blocks == fs.files[ino].blocks + 1
    && (fs'.files[ino].indirect != 0 <==> fs.files[ino].indirect != 0 || fs.files[ino].blocks >= NDIRECT)
    && |fs'.free| == |fs.free| - NeedOne(fs.files[ino])
    && OwnedBy(own', b, Data(ino, fs.files[ino].blocks)) && b < |fs'.disk| && fs'.disk[b] == Zeroes()
  }

  lemma {:induction false} GrownIsAppended(fs: Fs, own: map<nat, Owner>, fs': Fs, ino: nat, b: nat, ent: nat)
    requires Inv(fs, own) && ino in fs.files && Grown(fs, fs', ino, b, ent)
    ensures Appended(fs, own, fs', OwnGrown(own, fs.files[ino], ino, b, ent), ino, b)
  {
    assert FileOk(fs, own, ino);
    hide FileOk, Entry, EntryOk;
    assert |fs.free - {b}| == |fs.free| - 1;
    if ent in fs.free - {b} { assert |fs.free - {b} - {ent}| == |fs.free| - 2; } else { assert fs.free - {b} - {ent} == fs.free - {b}; }
  }

  /** The file `ino` has one block less. */
  ghost predicate Dropped(fs: Fs, own: map<nat, Owner>, fs': Fs, own': map<nat, Owner>, ino: nat)
    requires ino in fs.files && fs.files[ino].blocks > 0
  {
    && OthersKept(fs, fs', ino) && ino in fs'.files && DataKept(fs, own, fs', own', Data(ino, fs.files[ino].blocks - 1))
    && fs'.files[ino].size == fs.files[ino].size && fs'.files[ino].blocks == fs.files[ino].blocks - 1
    && fs'.files[ino].indirect == fs.files[ino].indirect && |fs'.free| == |fs.free| + 1
  }

  lemma {:induction false} ShrunkIsDropped(fs: Fs, own: map<nat, Owner>, fs': Fs, ino: nat)
    requires Inv(fs, own) && ino in fs.files && fs.files[ino].blocks > 0 && Shrunk(fs, fs', ino)
    ensures Dropped(fs, own, fs', own - {At(fs.disk, fs.files[ino], fs.files[ino].blocks - 1)}, ino)
  {
    assert FileOk(fs, own, ino) && EntryOk(fs, own, ino, fs.files[ino].blocks - 1);
  }

  /** Block `i` of a file. */
  ghost function Blk(fs: Fs, ino: nat, i: nat): Block
    requires ino in fs.files
  {
    if At(fs.disk, fs.files[ino], i) < |fs.disk| then fs.disk[At(fs.disk, fs.files[ino], i)] else Zeroes()
  }

  lemma {:induction false} BlockOfOwner(fs: Fs, own: map<nat, Owner>, x: nat, ino: nat, i: nat)
    requires Inv(fs, own) && OwnedBy(own, x, Data(ino, i))
    ensures ino in fs.files && i < fs.files[ino].blocks && At(fs.disk, fs.files[ino], i) == x && Blk(fs, ino, i) == fs.disk[x]
  {
    assert BackOk(fs, own, x);
  }

  /** A block that keeps its owner keeps its place and its bytes. */
  lemma {:induction false} BlkKept(fs: Fs, own: map<nat, Owner>, fs': Fs, own': map<nat, Owner>, but: Owner, j: nat, i: nat)
    requires Inv(fs, own) && Inv(fs', own') && DataKept(fs, own, fs', own', but) && j in fs.files && i < fs.files[j].blocks && but != Data(j, i)
    ensures j in fs'.files && i < fs'.files[j].blocks && Blk(fs', j, i) == Blk(fs, j, i)
  {
    assert FileOk(fs, own, j) && EntryOk(fs, own, j, i);
    var x := At(fs.disk, fs.files[j], i);
    BlockOfOwner(fs', own', x, j, i);
  }

  /** What the map of one file is like at one index. */
  ghost predicate Mapped(fs: Fs, ino: nat, index: nat) {
    && ino in fs.files && |fs.files[ino].direct| == NDIRECT && index < MAX_BLOCKS && index <= fs.files[ino].blocks <= MAX_BLOCKS
    && fs.files[ino].indirect < fs.nblocks && fs.files[ino].indirect !in fs.free
    && (fs.files[ino].blocks > NDIRECT ==> fs.files[ino].indirect > 0)
    && (index == fs.files[ino].blocks ==> At(fs.disk, fs.files[ino], index) == 0)
    && (index < fs.files[ino].blocks ==>
          0 < At(fs.disk, fs.files[ino], index) < fs.nblocks && At(fs.disk, fs.files[ino], index) !in fs.free)
  }

  lemma {:induction false} AtMost(fs: Fs, own: map<nat, Owner>, ino: nat)
    requires Inv(fs, own) && ino in fs.files
    ensures fs.files[ino].blocks <= MAX_BLOCKS
  {
    assert FileOk(fs, own, ino);
  }

  lemma {:induction false} MapFacts(fs: Fs, own: map<nat, Owner>, ino: nat, index: nat)
    requires Inv(fs, own) && ino in fs.files && index < MAX_BLOCKS && index <= fs.files[ino].blocks
    ensures Mapped(fs, ino, index)
    ensures index < fs.files[ino].blocks ==> OwnedBy(own, At(fs.disk, fs.files[ino], index), Data(ino, index))
  {
    assert FileOk(fs, own, ino) && EntryOk(fs, own, ino, index);
    if fs.files[ino].blocks > NDIRECT { assert EntryOk(fs, own, ino, NDIRECT); }
  }

  /** A new block `b` is entered at `index` of `ent`, which is new, too, if there was none. */
  ghost predicate Entered(fs: Fs, fs': Fs, ent0: nat, ent: nat, index: nat, b: nat)
    requires ent0 < |fs.disk|
  {
    && fs'.nblocks == fs.nblocks && |fs'.disk| == |fs.disk| && fs'.files == fs.files && fs'.unused == |fs'.free|
    && b in fs.free && b < |fs.disk| && 0 < ent < |fs.disk| && ent != b
    && (if ent0 == 0 then ent in fs.free else ent == ent0)
    && fs'.free == fs.free - {b} - {ent}
    && fs'.disk == fs.disk[b := Zeroes()][ent := fs'.disk[ent]]
    && EntryWritten(if ent0 == 0 then Zeroes() else fs.disk[ent0], fs'.disk[ent], index, b)
  }

  ghost function WithFile(fs: Fs, ino: nat, din: Din): Fs { fs.(files := fs.files[ino := din]) }

  lemma {:induction false} EnteredIsGrown(fs: Fs, fs': Fs, ino: nat, ent: nat, b: nat)
    requires Space(fs) && ino in fs.files && NDIRECT <= fs.files[ino].blocks < MAX_BLOCKS && fs.files[ino].indirect < fs.nblocks
    requires Entered(fs, fs', fs.files[ino].indirect, ent, fs.files[ino].blocks - NDIRECT, b)
    ensures Grown(fs, WithFile(fs', ino, fs.files[ino].(indirect := ent, blocks := fs.files[ino].blocks + 1)), ino, b, ent)
  {
  }
}
