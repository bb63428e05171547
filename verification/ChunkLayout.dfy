/**
 How XHttpDownLoader of c#/code/XUtils/XHttpDownLoader.cs cuts a download into chunks and where
 each chunk keeps its progress, with the 32-bit product of the original.
 */
module ChunkLayout {
  import opened Int32

  const BLOCK: int := 4194304

  const MAX_SIZE: int := 0x8000_0000

  datatype ChunkInfo = ChunkInfo(from: int, to: int, metaOffset: int)

  /** The number of chunks before the conversion to a 32-bit int. */
  function Count(size: nat): nat { (size + BLOCK - 1) / BLOCK }

  /** The i-th chunk as the code computes it. */
  function ChunkAt(size: nat, i: nat): ChunkInfo {
    var from := Wrap32(BLOCK * i);
    ChunkInfo(from, if size - 1 < from + BLOCK - 1 then size - 1 else from + BLOCK - 1, size + Wrap32(8 * i))
  }

  /** The first loop of InitChunkList. */
  method InitChunks(size: nat) returns (chunks: seq<ChunkInfo>)
    ensures |chunks| == if Wrap32(Count(size)) < 0 then 0 else Wrap32(Count(size))
    ensures chunks == Chunks(size)
  {
    chunks := [];
    var cnt := Wrap32(Count(size));
    var i := 0;
    while i < cnt
      invariant 0 <= i && (i <= cnt || (cnt < 0 && i == 0))
      invariant |chunks| == i && forall k :: 0 <= k < i ==> chunks[k] == ChunkAt(size, k)
    {
      chunks := chunks + [ChunkAt(size, i)];
      i := i + 1;
    }
  }

  function Chunks(size: nat): seq<ChunkInfo> {
    var cnt := Wrap32(Count(size));
    seq(if cnt < 0 then 0 else cnt, i requires 0 <= i => ChunkAt(size, i))
  }

  predicate Covers(c: ChunkInfo, p: int) { c.from <= p <= c.to }

  predicate Covered(chunks: seq<ChunkInfo>, p: int) {
    exists i :: 0 <= i < |chunks| && Covers(chunks[i], p)
  }

  /** Every position of [0, size) lies in exactly one chunk and no chunk reaches outside. */
  ghost predicate Tiles(chunks: seq<ChunkInfo>, size: nat) {
    && (forall p :: 0 <= p < size ==> Covered(chunks, p))
    && (forall i, p :: 0 <= i < |chunks| && Covers(chunks[i], p) ==> 0 <= p < size)
    && (forall i, j, p :: 0 <= i < |chunks| && 0 <= j < |chunks| && Covers(chunks[i], p) && Covers(chunks[j], p) ==> i == j)
  }

  /** Without wrap-around: chunk i is block i of the file. */
  lemma ChunkIsBlock(size: nat, i: nat)
    requires size <= MAX_SIZE && i < Count(size)
    ensures Wrap32(Count(size)) == Count(size) <= 512
    ensures var c := ChunkAt(size, i);
      && c.from == BLOCK * i && 0 <= c.from <= c.to < size
      && c.to + 1 == (if i + 1 == Count(size) then size else BLOCK * (i + 1))
      && c.metaOffset == size + 8 * i
  {
  }

  lemma SmallTiles(size: nat)
    requires size <= MAX_SIZE
    ensures Tiles(Chunks(size), size)
  {
    var chunks := Chunks(size);
    assert Count(size) <= 512 && |chunks| == Count(size);
    forall p | 0 <= p < size
      ensures Covered(chunks, p)
    {
      var i := p / BLOCK;
      assert i < Count(size);
      ChunkIsBlock(size, i);
      assert Covers(chunks[i], p);
    }
    forall i, p | 0 <= i < |chunks| && Covers(chunks[i], p)
      ensures 0 <= p < size && i == p / BLOCK
    {
      ChunkIsBlock(size, i);
    }
  }

  lemma LargeDoesNotTile(size: nat)
    requires size > MAX_SIZE
    ensures !Tiles(Chunks(size), size)
  {
    var chunks := Chunks(size);
    if |chunks| > 512 {
      assert Wrap32(BLOCK * 512) == -0x8000_0000;
      assert Covers(chunks[512], -0x8000_0000);
    } else {
      forall i | 0 <= i < |chunks|
        ensures !Covers(chunks[i], size - 1)
      {
        assert BLOCK * i < 0x8000_0000 && Wrap32(BLOCK * i) == BLOCK * i;
      }
      assert !Covered(chunks, size - 1);
    }
  }

  /** The 32-bit product BlockSize * i is harmless exactly up to 2^31 bytes. */
  lemma TilesExactlyWhenSmall(size: nat)
    ensures Tiles(Chunks(size), size) <==> size <= MAX_SIZE
  {
    if size <= MAX_SIZE {
      SmallTiles(size);
    } else {
      LargeDoesNotTile(size);
    }
  }

  /** The progress slots tile [size, size + 8 * count), right behind the data. */
  lemma SlotsTile(size: nat, p: int)
    requires size <= MAX_SIZE
    ensures size <= p < size + 8 * Count(size) <==>
      exists i :: 0 <= i < Count(size) && ChunkAt(size, i).metaOffset <= p < ChunkAt(size, i).metaOffset + 8
    ensures forall i, j :: 0 <= i < j < Count(size) ==> ChunkAt(size, i).metaOffset + 8 <= ChunkAt(size, j).metaOffset
  {
    assert Count(size) <= 512;
    forall i | 0 <= i < Count(size)
      ensures ChunkAt(size, i).metaOffset == size + 8 * i
    {
      ChunkIsBlock(size, i);
    }
    if size <= p < size + 8 * Count(size) {
      var i := (p - size) / 8;
      assert 0 <= i < Count(size);
      assert ChunkAt(size, i).metaOffset <= p < ChunkAt(size, i).metaOffset + 8;
    }
  }
}
