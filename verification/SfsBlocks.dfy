/** Blocks and block maps of the simple file system (fs/sfs/sfs_inode.c lines 65-317, fs/sfs/sfs_io.c). */
module SfsBlocks {
  import opened SfsState
  import opened Bitmaps

  datatype Ret = Ok | NoMem | Inval

  /** Only blocks that are free may differ. */
  ghost predicate Untouched(fs: Fs, fs': Fs) {
    && |fs'.disk| == |fs.disk| && fs' == fs.(disk := fs'.disk)
    && forall b: nat | b < |fs.disk| && b !in fs.free :: fs'.disk[b] == fs.disk[b]
  }

  /** The state once the block counter of a file follows its map. */
  ghost function Recounted(fs: Fs, ino: nat, blocks: nat): Fs
    requires ino in fs.files
  {
    WithFile(fs, ino, fs.files[ino].(blocks := blocks))
  }

  lemma {:induction false} RecountedIs(fs: Fs, ino: nat, din: Din, ent: nat)
    ensures Recounted(WithFile(fs, ino, din.(indirect := ent)), ino, din.blocks + 1)
      == WithFile(fs, ino, din.(indirect := ent, blocks := din.blocks + 1))
  {
  }

  lemma {:induction false} OneOf(s: set<nat>, x: nat)
    requires x in s
    ensures |s - {x}| == |s| - 1 && s - {x} + {x} == s
  {
  }

  lemma {:induction false} WrittenAgain(d: seq<Block>, i: nat, x: Block, j: nat, y: Block, z: Block)
    requires i < |d| && j < |d| && i != j
    ensures d[i := x][j := y][i := z] == d[j := y][i := z]
  {
  }

  class Sfs {
    const nblocks: nat
    const freemap: Bitmap
    var unused: nat
    var disk: seq<Block>
    var buffer: Block
    var files: map<nat, Din>
    ghost var own: map<nat, Owner>

    ghost function View(): Fs
      requires freemap.Valid()
      reads this, freemap, freemap.words
    {
      Fs(nblocks, freemap.Contents(), unused, disk, files)
    }

    /** The free map, its counter and the disk fit together. */
    ghost predicate Ready()
      reads this, freemap, freemap.words
    {
      freemap.Valid() && nblocks <= freemap.nbits && Space(View())
    }

    ghost predicate Valid()
      reads this, freemap, freemap.words
    {
      Ready() && Inv(View(), own)
    }

    /** What sfs_do_mount has checked or trusts. */
    constructor (nblocks: nat, freemap: Bitmap, unused: nat, disk: seq<Block>, files: map<nat, Din>, ghost own: map<nat, Owner>)
      requires freemap.Valid() && nblocks <= freemap.nbits && Inv(Fs(nblocks, freemap.Contents(), unused, disk, files), own)
      ensures Valid() && this.freemap == freemap && View() == Fs(nblocks, freemap.Contents(), unused, disk, files)
    {
      this.nblocks, this.freemap, this.unused, this.disk, this.files, this.own := nblocks, freemap, unused, disk, files, own;
      buffer := Zeroes();
    }

    method SetFile(ino: nat, din: Din)
      requires Ready()
      modifies `files
      ensures Ready() && View() == WithFile(old(View()), ino, din)
    {
      files := files[ino := din];
    }

    /** sfs_rbuf: a block goes through the buffer of the file system. */
    method Rbuf(len: nat, b: nat, off: nat) returns (data: seq<Byte>)
      requires Ready() && 0 < b < nblocks && off + len <= BLKSIZE
      modifies `buffer
      ensures data == disk[b][off..off + len]
    {
      buffer := disk[b];
      data := buffer[off..off + len];
    }

    /** sfs_wbuf: a block is read, patched and written back. */
    method Wbuf(data: seq<Byte>, b: nat, off: nat)
      requires Ready() && 0 < b < nblocks && off + |data| <= BLKSIZE
      modifies `disk, `buffer
      ensures Ready() && View() == old(View()).(disk := old(disk)[b := Patch(old(disk)[b], off, data)])
    {
      buffer := disk[b];
      buffer := Patch(buffer, off, data);
      disk := disk[b := buffer];
    }

    /** sfs_wblock of one block goes to the disk directly. */
    method Wblock(data: Block, b: nat)
      requires Ready() && 0 < b < nblocks
      modifies `disk
      ensures Ready() && View() == old(View()).(disk := old(disk)[b := Patch(old(disk)[b], 0, data)])
    {
      assert Patch(disk[b], 0, data) == data;
      disk := disk[b := data];
    }

    /** sfs_wbuf of one entry of an indirect block. */
    method PutEntry(v: nat, ent: nat, index: nat)
      requires Ready() && 0 < ent < nblocks && index < NENTRY && v < 0x1_0000_0000
      modifies `disk, `buffer
      ensures Ready() && View() == old(View()).(disk := old(disk)[ent := disk[ent]]) && EntryWritten(old(disk)[ent], disk[ent], index, v)
    {
      EntrySet(disk[ent], index, v);
      Wbuf(LittleEndian(v), ent, 4 * index);
    }

    /** sfs_block_alloc takes the lowest free block and clears it; both of its assertions hold. */
    method BlockAlloc() returns (ok: bool, b: nat)
      requires Ready()
      modifies this`unused, this`disk, this`buffer, freemap.words
      ensures Ready() && (ok <==> old(View()).free != {})
      ensures !ok ==> View() == old(View())
      ensures ok ==> b in old(View()).free && View() == Taken(old(View()), b) && forall x | x in old(View()).free :: b <= x
    {
      b, ok := freemap.Alloc();
      if ok {
        assert unused > 0;
        unused := unused - 1;
        buffer := Zeroes();
        disk := disk[b := buffer];
      }
    }

    /** sfs_block_free of a block in use. */
    method BlockFree(b: nat)
      requires Ready() && 0 < b < nblocks && b !in View().free
      modifies this`unused, freemap.words
      ensures Ready() && View() == old(View()).(free := old(View()).free + {b}, unused := old(unused) + 1)
    {
      freemap.Release(b);
      unused := unused + 1;
    }

    /** sfs_bmap_get_sub_nolock without `create`: what the indirect block `ent` holds at `index`. */
    method BmapGetSub(ent: nat, index: nat) returns (b: nat)
      requires Ready() && ent < nblocks && index < NENTRY
      modifies `buffer
      ensures b == if ent == 0 then 0 else Entry(disk[ent], index)
    {
      if ent == 0 { return 0; }
      var word := Rbuf(4, ent, 4 * index);
      b := Decode(word);
    }

    /** A new block, entered at `index` of the indirect block `ent`. */
    method NewEntry(ent: nat, index: nat) returns (ok: bool, b: nat)
      requires Ready() && 0 < ent < nblocks && ent !in View().free && index < NENTRY
      modifies this`unused, this`disk, this`buffer, freemap.words
      ensures Ready() && (ok <==> old(View()).free != {}) && files == old(files)
      ensures !ok ==> View() == old(View())
      ensures ok ==> b in old(View()).free && View().free == old(View()).free - {b}
      ensures ok ==> disk == old(disk)[b := Zeroes()][ent := disk[ent]] && EntryWritten(old(disk)[ent], disk[ent], index, b)
    {
      ok, b := BlockAlloc();
      if ok { PutEntry(b, ent, index); }
    }

    /** The same for a file that has no indirect block: if there is none left for the entry, the new one is given back. */
    method NewIndirect(index: nat) returns (ok: bool, ent: nat, b: nat)
      requires Ready() && index < NENTRY
      modifies this`unused, this`disk, this`buffer, freemap.words
      ensures Ready() && (ok <==> |old(View()).free| >= 2) && files == old(files)
      ensures !ok ==> Untouched(old(View()), View())
      ensures ok ==> b in old(View()).free && ent in old(View()).free && ent != b && View().free == old(View()).free - {b} - {ent}
      ensures ok ==> disk == old(disk)[b := Zeroes()][ent := disk[ent]] && EntryWritten(Zeroes(), disk[ent], index, b)
    {
      ghost var was := View();
      ok, ent := BlockAlloc();
      if !ok { b := 0; return; }
      OneOf(was.free, ent);
      ok, b := NewEntry(ent, index);
      if ok { WrittenAgain(was.disk, ent, Zeroes(), b, Zeroes(), disk[ent]); } else { BlockFree(ent); }
    }

    /** sfs_bmap_get_sub_nolock with `create` where there is no entry yet. */
    method BmapCreateSub(ent0: nat, index: nat) returns (ok: bool, ent: nat, b: nat)
      requires Ready() && ent0 < nblocks && ent0 !in View().free && index < NENTRY
      modifies this`unused, this`disk, this`buffer, freemap.words
      ensures Ready() && (ok <==> |old(View()).free| >= if ent0 == 0 then 2 else 1) && files == old(files)
      ensures !ok ==> Untouched(old(View()), View())
      ensures ok ==> Entered(old(View()), View(), ent0, ent, index, b)
    {
      if ent0 == 0 { ok, ent, b := NewIndirect(index); }
      else {
        ent := ent0;
        ok, b := NewEntry(ent, index);
      }
    }

    /** The two branches of sfs_bmap_get_nolock that make a block. */
    method CreateDirect(ino: nat) returns (ok: bool, b: nat)
      requires Ready() && ino in files && files[ino].blocks < NDIRECT <= |files[ino].direct|
      modifies this`unused, this`disk, this`buffer, this`files, freemap.words
      ensures Ready() && (ok <==> |old(View()).free| >= 1)
      ensures !ok ==> View() == old(View())
      ensures ok ==> ino in files && Grown(old(View()), Recounted(View(), ino, old(files)[ino].blocks + 1), ino, b, 0)
    {
      ok, b := BlockAlloc();
      if ok { files := files[ino := files[ino].(direct := files[ino].direct[files[ino].blocks := b])]; }
    }

    method CreateIndirect(ino: nat) returns (ok: bool, b: nat, ent: nat)
      requires Ready() && ino in files && NDIRECT <= files[ino].blocks < MAX_BLOCKS
      requires files[ino].indirect < nblocks && files[ino].indirect !in View().free
      modifies this`unused, this`disk, this`buffer, this`files, freemap.words
      ensures Ready() && (ok <==> |old(View()).free| >= NeedOne(old(files)[ino]))
      ensures !ok ==> Untouched(old(View()), View())
      ensures ok ==> ino in files && Grown(old(View()), Recounted(View(), ino, old(files)[ino].blocks + 1), ino, b, ent)
    {
      ghost var was, din := View(), files[ino];
      ok, ent, b := BmapCreateSub(files[ino].indirect, files[ino].blocks - NDIRECT);
      if ok {
        EnteredIsGrown(was, View(), ino, ent, b);
        RecountedIs(View(), ino, din, ent);
        hide Grown, Entered, Untouched, Recounted, EntryWritten;
        SetFile(ino, files[ino].(indirect := ent));
      }
    }

    /** sfs_bmap_get_nolock up to the last direct or indirect entry, called as sfs_bmap_load_nolock calls it. */
    method BmapGet(ino: nat, index: nat, create: bool) returns (ok: bool, b: nat, ghost ent: nat)
      requires Ready() && Mapped(View(), ino, index) && (create <==> index == files[ino].blocks)
      modifies this`unused, this`disk, this`buffer, this`files, freemap.words
      ensures Ready() && (ok <==> !create || |old(View()).free| >= NeedOne(old(files)[ino]))
      ensures ok && !create ==> View() == old(View()) && b == At(disk, files[ino], index)
      ensures !ok ==> Untouched(old(View()), View())
      ensures ok && create ==> ino in files && Grown(old(View()), Recounted(View(), ino, old(files)[ino].blocks + 1), ino, b, ent)
    {
      hide Grown, EntryWritten;
      ok, ent := true, 0;
      if index < NDIRECT {
        b := files[ino].direct[index];
        if b == 0 && create { ok, b := CreateDirect(ino); }
      } else {
        b := BmapGetSub(files[ino].indirect, index - NDIRECT);
        if b == 0 && create { ok, b, ent := CreateIndirect(ino); }
      }
    }

    /** sfs_bmap_load_nolock: a block of the file, or a new one at its end. It fails exactly when there
        are not blocks enough, and then nothing has happened. */
    method BmapLoad(ino: nat, index: nat) returns (ok: bool, b: nat)
      requires Valid() && ino in files && index < MAX_BLOCKS && index <= files[ino].blocks
      modifies this, freemap.words
      ensures Valid() && (ok <==> index < old(files)[ino].blocks || |old(View()).free| >= NeedOne(old(files)[ino]))
      ensures !ok ==> own == old(own) && Untouched(old(View()), View())
      ensures ok && index < old(files)[ino].blocks ==>
        own == old(own) && View() == old(View()) && OwnedBy(own, b, Data(ino, index)) && b == At(disk, files[ino], index)
      ensures ok && index == old(files)[ino].blocks ==> Appended(old(View()), old(own), View(), own, ino, b)
    {
      var create := index == files[ino].blocks;
      ghost var was, ent := View(), 0;
      MapFacts(was, own, ino, index);
      ok, b, ent := BmapGet(ino, index, create);
      if ok && create {
        SetFile(ino, files[ino].(blocks := index + 1));
        RecordGrown(was, ino, b, ent);
      } else if !ok {
        FreeWriteKeepsInv(was, own, View());
      }
    }

    /** The two branches of sfs_bmap_free_nolock, for the last block. */
    method FreeDirect(ino: nat, index: nat)
      requires Ready() && Mapped(View(), ino, index) && index + 1 == files[ino].blocks <= NDIRECT
      modifies this`unused, this`disk, this`buffer, this`files, freemap.words
      ensures Ready() && Shrunk(old(View()), View(), ino)
    {
      BlockFree(files[ino].direct[index]);
      SetFile(ino, files[ino].(direct := files[ino].direct[index := 0], blocks := index));
    }

    method FreeIndirect(ino: nat, index: nat)
      requires Ready() && Mapped(View(), ino, index) && NDIRECT < files[ino].blocks == index + 1
      modifies this`unused, this`disk, this`buffer, this`files, freemap.words
      ensures Ready() && Shrunk(old(View()), View(), ino)
    {
      ghost var b := At(disk, files[ino], index);
      FreeSub(files[ino].indirect, index - NDIRECT);
      SetFile(ino, files[ino].(blocks := index));
      assert View().free == old(View()).free + {b};
    }

    /** sfs_bmap_free_sub_nolock: an entry of the indirect block `ent` is cleared, and its block is freed. */
    method FreeSub(ent: nat, index: nat)
      requires Ready() && 0 < ent < nblocks && index < NENTRY
      requires Entry(disk[ent], index) < nblocks && Entry(disk[ent], index) !in View().free
      modifies this`unused, this`disk, this`buffer, freemap.words
      ensures Ready() && disk == old(disk)[ent := disk[ent]] && EntryWritten(old(disk)[ent], disk[ent], index, 0)
      ensures var b := Entry(old(disk)[ent], index); View().free == if b != 0 then old(View()).free + {b} else old(View()).free
    {
      hide Patch, SetEntry;
      var b := BmapGetSub(ent, index);
      if b != 0 {
        PutEntry(0, ent, index);
        BlockFree(b);
      } else {
        assert disk == disk[ent := disk[ent]];
      }
    }

    ghost method RecordGrown(was: Fs, ino: nat, b: nat, ent: nat)
      requires Ready() && Inv(was, own) && ino in was.files && Grown(was, View(), ino, b, ent)
      modifies this`own
      ensures Valid() && View() == old(View()) && Appended(was, old(own), View(), own, ino, b)
    {
      GrownKeepsInv(was, own, View(), ino, b, ent);
      GrownIsAppended(was, own, View(), ino, b, ent);
      own := OwnGrown(own, was.files[ino], ino, b, ent);
    }

    /** sfs_bmap_truncate_nolock: the last block of the file is freed. */
    method BmapTruncate(ino: nat)
      requires Valid() && ino in files && files[ino].blocks > 0
      modifies this, freemap.words
      ensures Valid() && Dropped(old(View()), old(own), View(), own, ino)
    {
      ghost var was := View();
      AtMost(was, own, ino);
      MapFacts(was, own, ino, files[ino].blocks - 1);
      if files[ino].blocks <= NDIRECT { FreeDirect(ino, files[ino].blocks - 1); } else { FreeIndirect(ino, files[ino].blocks - 1); }
      RecordShrunk(was, ino);
    }

    ghost method RecordShrunk(was: Fs, ino: nat)
      requires Ready() && Inv(was, own) && ino in was.files && was.files[ino].blocks > 0 && Shrunk(was, View(), ino)
      modifies this`own
      ensures Valid() && View() == old(View()) && Dropped(was, old(own), View(), own, ino)
    {
      ShrunkKeepsInv(was, own, View(), ino);
      ShrunkIsDropped(was, own, View(), ino);
      own := own - {At(was.disk, was.files[ino], was.files[ino].blocks - 1)};
    }
  }
}
