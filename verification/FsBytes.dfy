/** Files as byte sequences over the blocks of FsModel, and how one block write changes them. */
module FsBytes {
  import opened Blocks
  import opened FsModel

  const MAXBYTES: nat := MAXFILE * BSIZE

  /** Byte `x` of file `i`; zero where no block is mapped. */
  function FByte(f: Fs, i: nat, x: nat): byte
    requires i < |f.inodes| && x < MAXBYTES
  {
    FileBlk(f, i, x / BSIZE)[x % BSIZE]
  }

  /** The first `n` bytes of file `i`. */
  function Bytes(f: Fs, i: nat, n: nat): (c: seq<byte>)
    requires i < |f.inodes| && n <= MAXBYTES
    ensures |c| == n
  {
    if n == 0 then [] else Bytes(f, i, n - 1) + [FByte(f, i, n - 1)]
  }

  lemma {:induction false} BytesAt(f: Fs, i: nat, n: nat, x: nat)
    requires i < |f.inodes| && x < n <= MAXBYTES
    ensures Bytes(f, i, n)[x] == FByte(f, i, x)
  {
    if x < n - 1 { BytesAt(f, i, n - 1, x); }
  }

  /** The contents of file `i`. */
  function Content(f: Fs, i: nat): (c: seq<byte>)
    requires i < |f.inodes| && f.inodes[i].size <= MAXBYTES
    ensures |c| == f.inodes[i].size
  {
    Bytes(f, i, f.inodes[i].size)
  }

  lemma ContentAt(f: Fs, i: nat, x: nat)
    requires i < |f.inodes| && x < f.inodes[i].size <= MAXBYTES
    ensures Content(f, i)[x] == FByte(f, i, x)
  {
    BytesAt(f, i, f.inodes[i].size, x);
  }

  lemma {:induction false} SameBytes(f: Fs, i: nat, f': Fs, n: nat)
    requires i < |f.inodes| && i < |f'.inodes| && n <= MAXBYTES
    requires forall x: nat :: x < n ==> FByte(f', i, x) == FByte(f, i, x)
    ensures Bytes(f', i, n) == Bytes(f, i, n)
  {
    if n > 0 { SameBytes(f, i, f', n - 1); }
  }

  /** memmove of `data` into a block at position `p`. */
  function Splice(blk: Block, p: nat, data: seq<byte>): (r: Block)
    requires p + |data| <= BSIZE
  {
    blk[..p] + data + blk[p + |data|..]
  }

  lemma SpliceAt(blk: Block, p: nat, data: seq<byte>, q: nat)
    requires p + |data| <= BSIZE && q < BSIZE
    ensures Splice(blk, p, data)[q] == if p <= q < p + |data| then data[q - p] else blk[q]
  {
  }

  /** Byte `x` of file `j`, for all `j` and `x`. */
  function AnyByte(f: Fs, j: nat, x: nat): byte {
    if Live(f, j) && x < MAXBYTES then FByte(f, j, x) else 0
  }

  /** Byte `x` of file `j` once `data` has been written to file `i` at `off`. */
  function NewByte(f: Fs, i: nat, off: nat, data: seq<byte>, j: nat, x: nat): byte {
    if j == i && off <= x < off + |data| then data[x - off] else AnyByte(f, j, x)
  }

  /** Exactly the bytes `off ..` of file `i` were replaced by `data`; every other byte of every
      file is as before, and the same inodes are allocated. */
  ghost predicate Written(f: Fs, f': Fs, i: nat, off: nat, data: seq<byte>) {
    && (forall j: nat :: Live(f', j) <==> Live(f, j))
    && forall j: nat, x: nat :: AnyByte(f', j, x) == NewByte(f, i, off, data, j, x)
  }

  lemma ExtendsWritesNothing(f: Fs, f': Fs, i: nat, off: nat)
    requires Extends(f, f') && forall j: nat :: Live(f', j) <==> Live(f, j)
    ensures Written(f, f', i, off, [])
  {
    forall j: nat, x: nat ensures AnyByte(f', j, x) == NewByte(f, i, off, [], j, x) {
      assert KeepsSlot(f, f', j, x / BSIZE);
    }
  }

  /** Writing inside one mapped block. */
  lemma PutBlockWrites(g: Geometry, f: Fs, own: Owner, i: nat, off: nat, data: seq<byte>)
    requires Sound(g, f, own) && Live(f, i) && off < MAXBYTES && Ref(f, i, off / BSIZE) != 0
    requires off % BSIZE + |data| <= BSIZE
    ensures Ref(f, i, off / BSIZE) < |f.blocks|
    ensures var b := Ref(f, i, off / BSIZE);
            Written(f, PutBlock(f, b, Splice(f.blocks[b], off % BSIZE, data)), i, off, data)
  {
    var k, p := off / BSIZE, off % BSIZE;
    var b := Ref(f, i, k);
    assert SlotOk(g, f, own, i, k);
    var blk := Splice(f.blocks[b], p, data);
    var f' := PutBlock(f, b, blk);
    forall j: nat, x: nat ensures AnyByte(f', j, x) == NewByte(f, i, off, data, j, x) {
      if Live(f, j) && x < MAXBYTES {
        PutBlockRef(g, f, own, i, k, blk, j, x / BSIZE);
        SpliceAt(f.blocks[b], p, data, x % BSIZE);
      }
    }
  }

  /** Adjacent writes add up. */
  lemma WrittenTrans(f: Fs, f': Fs, f'': Fs, i: nat, off: nat, a: seq<byte>, b: seq<byte>)
    requires Written(f, f', i, off, a) && Written(f', f'', i, off + |a|, b)
    ensures Written(f, f'', i, off, a + b)
  {
    forall j: nat, x: nat ensures AnyByte(f'', j, x) == NewByte(f, i, off, a + b, j, x) {
      assert AnyByte(f', j, x) == NewByte(f, i, off, a, j, x);
    }
  }

  /** What a completed write means for file contents. */
  function Overwrite(c: seq<byte>, off: nat, data: seq<byte>): (r: seq<byte>)
    requires off <= |c|
    ensures |r| == if off + |data| <= |c| then |c| else off + |data|
  {
    c[..off] + data + (if off + |data| <= |c| then c[off + |data|..] else [])
  }

  lemma OverwriteAt(c: seq<byte>, off: nat, data: seq<byte>, x: nat)
    requires off <= |c| && x < |Overwrite(c, off, data)|
    ensures Overwrite(c, off, data)[x] == if off <= x < off + |data| then data[x - off] else c[x]
  {
  }

  /** The written file is overwritten in place, and grown if the write runs past its end. */
  lemma WrittenContent(f: Fs, f': Fs, i: nat, off: nat, data: seq<byte>)
    requires Written(f, f', i, off, data) && Live(f, i) && i < |f'.inodes|
    requires off <= f.inodes[i].size <= MAXBYTES && off + |data| <= MAXBYTES
    requires f'.inodes[i].size == if f.inodes[i].size < off + |data| then off + |data| else f.inodes[i].size
    ensures Content(f', i) == Overwrite(Content(f, i), off, data)
  {
    var c, c' := Content(f, i), Content(f', i);
    var want := Overwrite(c, off, data);
    forall x: nat | x < |c'| ensures c'[x] == want[x] {
      ContentAt(f', i, x);
      if x < |c| { ContentAt(f, i, x); }
      assert AnyByte(f', i, x) == NewByte(f, i, off, data, i, x);
      OverwriteAt(c, off, data, x);
    }
  }

  /** Every other file keeps its contents. */
  lemma WrittenOther(f: Fs, f': Fs, i: nat, off: nat, data: seq<byte>, j: nat)
    requires Written(f, f', i, off, data) && Live(f, j) && j != i && j < |f'.inodes|
    requires f.inodes[j].size == f'.inodes[j].size <= MAXBYTES
    ensures Content(f', j) == Content(f, j)
  {
    forall x: nat | x < f.inodes[j].size ensures FByte(f', j, x) == FByte(f, j, x) {
      assert AnyByte(f', j, x) == NewByte(f, i, off, data, j, x);
    }
    SameBytes(f, j, f', f.inodes[j].size);
  }

  /** Bytes inside one mapped block are the block's bytes. */
  lemma ContentChunk(f: Fs, i: nat, o: nat, m: nat)
    requires i < |f.inodes| && f.inodes[i].size <= MAXBYTES && o + m <= f.inodes[i].size
    requires o % BSIZE + m <= BSIZE && 0 < m && Ref(f, i, o / BSIZE) != 0
    ensures Content(f, i)[o..o + m] == Blk(f, Ref(f, i, o / BSIZE))[o % BSIZE..o % BSIZE + m]
  {
    var k, p := o / BSIZE, o % BSIZE;
    var c, blk := Content(f, i), Blk(f, Ref(f, i, k));
    var cs, bs := c[o..o + m], blk[p..p + m];
    forall y: nat | y < m ensures cs[y] == bs[y] {
      SameBlock(o, y);
      ContentAt(f, i, o + y);
    }
  }

  lemma SameBlock(o: nat, y: nat)
    requires o % BSIZE + y < BSIZE
    ensures (o + y) / BSIZE == o / BSIZE && (o + y) % BSIZE == o % BSIZE + y
  {
  }

  lemma Glue(c: seq<byte>, a: nat, b: nat, d: nat)
    requires a <= b <= d <= |c|
    ensures c[a..d] == c[a..b] + c[b..d]
  {
  }
}
