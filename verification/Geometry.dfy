/** How a torrent's bytes are cut into pieces and 16 KiB blocks. */
module Geometry {
  import opened Basics

  const PIECE_BLOCK_SIZE: nat := 16384

  type Digest = bytes

  /** A block within a piece, as requested from a peer. */
  datatype BlockInfo = BlockInfo(piece: nat, offset: nat, length: nat)

  /**
   * The immutable part of a download. `sha1` stands for SHA-1 and is left
   * arbitrary: nothing is known of it beyond being a function.
   */
  datatype Meta = Meta(totalPieces: nat, pieceLength: nat, totalSize: nat,
                       hashes: seq<Digest>, sha1: bytes -> Digest)
  {
    /** Metainfo whose pieces fit its size; the last piece is never empty. */
    predicate WellFormed() {
      && 1 <= totalPieces <= U32_LIMIT
      && 1 <= pieceLength < U32_LIMIT
      && |hashes| == totalPieces
      && (totalPieces - 1) * pieceLength < totalSize <= totalPieces * pieceLength
    }

    /** Length of a piece; the last one may be shorter. */
    function PieceLen(p: nat): nat
      requires WellFormed()
    {
      if p == totalPieces - 1 then totalSize - p * pieceLength else pieceLength
    }

    function BlocksIn(p: nat): nat
      requires WellFormed()
    {
      DivCeil(PieceLen(p), PIECE_BLOCK_SIZE)
    }

    function BlockLen(p: nat, offset: nat): nat
      requires WellFormed()
    {
      var remaining := if PieceLen(p) >= offset then PieceLen(p) - offset else 0;
      Min(remaining, PIECE_BLOCK_SIZE)
    }

    /** The k-th block of piece p. */
    function Tile(p: nat, k: nat): BlockInfo
      requires WellFormed()
    {
      BlockInfo(p, k * PIECE_BLOCK_SIZE, BlockLen(p, k * PIECE_BLOCK_SIZE))
    }

    predicate IsTile(b: BlockInfo)
      requires WellFormed()
    {
      b.piece < totalPieces && Index(b) < BlocksIn(b.piece) && b == Tile(b.piece, Index(b))
    }

    /** First byte of a piece, counted from the start of the file. */
    function Start(p: nat): nat { p * pieceLength }

    predicate Covers(b: BlockInfo, x: nat) {
      Start(b.piece) + b.offset <= x < Start(b.piece) + b.offset + b.length
    }

    /** The bytes of piece p of a file. */
    function Chunk(file: bytes, p: nat): bytes
      requires WellFormed() && p < totalPieces && |file| == totalSize
    {
      PieceInFile(this, p);
      file[Start(p)..Start(p) + PieceLen(p)]
    }

    function TotalBlocks(): nat
      requires WellFormed()
    {
      BlocksUpTo(this, totalPieces)
    }
  }

  /** Position of a block's slot in its piece. */
  function Index(b: BlockInfo): nat { b.offset / PIECE_BLOCK_SIZE }

  /** Blocks of the first n pieces. */
  function BlocksUpTo(m: Meta, n: nat): nat
    requires m.WellFormed()
  {
    if n == 0 then 0 else BlocksUpTo(m, n - 1) + m.BlocksIn(n - 1)
  }

  /** Bytes in the first n pieces. */
  function PieceBytes(m: Meta, n: nat): nat
    requires m.WellFormed()
  {
    if n == 0 then 0 else PieceBytes(m, n - 1) + m.PieceLen(n - 1)
  }

  /** Bytes in the first k blocks of piece p. */
  function BlockBytes(m: Meta, p: nat, k: nat): nat
    requires m.WellFormed()
  {
    if k == 0 then 0 else BlockBytes(m, p, k - 1) + m.Tile(p, k - 1).length
  }

  lemma MulMonotone(a: nat, b: nat, c: nat)
    requires a <= b
    ensures a * c <= b * c
  {
  }

  lemma PieceInFile(m: Meta, p: nat)
    requires m.WellFormed() && p < m.totalPieces
    ensures 1 <= m.PieceLen(p) <= m.pieceLength
    ensures m.Start(p) + m.PieceLen(p) <= m.totalSize
    ensures p + 1 < m.totalPieces ==> m.Start(p) + m.PieceLen(p) == m.Start(p + 1)
    ensures p + 1 == m.totalPieces ==> m.Start(p) + m.PieceLen(p) == m.totalSize
  {
    if p + 1 == m.totalPieces {
      assert m.totalPieces * m.pieceLength == p * m.pieceLength + m.pieceLength;
    } else {
      MulMonotone(p + 1, m.totalPieces - 1, m.pieceLength);
      assert (p + 1) * m.pieceLength == p * m.pieceLength + m.pieceLength;
    }
  }

  /** Every block of a piece is within 1..16384 bytes and inside its piece. */
  lemma TileBounds(m: Meta, p: nat, k: nat)
    requires m.WellFormed() && p < m.totalPieces && k < m.BlocksIn(p)
    ensures 1 <= m.Tile(p, k).length <= PIECE_BLOCK_SIZE
    ensures k * PIECE_BLOCK_SIZE + m.Tile(p, k).length <= m.PieceLen(p)
    ensures m.Tile(p, k).length == PIECE_BLOCK_SIZE || k + 1 == m.BlocksIn(p)
    ensures k + 1 == m.BlocksIn(p) ==> k * PIECE_BLOCK_SIZE + m.Tile(p, k).length == m.PieceLen(p)
    ensures Index(m.Tile(p, k)) == k && m.IsTile(m.Tile(p, k))
  {
    PieceInFile(m, p);
  }

  lemma EveryPieceHasABlock(m: Meta, p: nat)
    requires m.WellFormed()
    ensures m.BlocksIn(p) >= 1
  {
    if p == m.totalPieces - 1 { PieceInFile(m, p); }
  }

  /** Every byte of the file lies in some block. */
  lemma TilesCoverFile(m: Meta, x: nat) returns (p: nat, k: nat)
    requires m.WellFormed() && x < m.totalSize
    ensures p < m.totalPieces && k < m.BlocksIn(p) && m.Covers(m.Tile(p, k), x)
  {
    p := x / m.pieceLength;
    k := x % m.pieceLength / PIECE_BLOCK_SIZE;
    var r := x % m.pieceLength;
    assert x == p * m.pieceLength + r;
    if p >= m.totalPieces {
      MulMonotone(m.totalPieces, p, m.pieceLength);
      assert false;
    }
    PieceInFile(m, p);
  }

  /** No byte of the file lies in two blocks. */
  lemma TilesDisjoint(m: Meta, p: nat, k: nat, q: nat, j: nat, x: nat)
    requires m.WellFormed()
    requires p < m.totalPieces && k < m.BlocksIn(p) && m.Covers(m.Tile(p, k), x)
    requires q < m.totalPieces && j < m.BlocksIn(q) && m.Covers(m.Tile(q, j), x)
    ensures p == q && k == j
  {
    TileBounds(m, p, k);
    TileBounds(m, q, j);
    PieceInFile(m, p);
    PieceInFile(m, q);
    if p < q {
      MulMonotone(p + 1, q, m.pieceLength);
      assert false;
    } else if q < p {
      MulMonotone(q + 1, p, m.pieceLength);
      assert false;
    }
  }

  /** The tiling is a partition of the file: exactly one block per byte. */
  lemma TilingPartitionsFile(m: Meta, x: nat)
    requires m.WellFormed()
    ensures x < m.totalSize <==> exists b :: m.IsTile(b) && m.Covers(b, x)
    ensures forall b, c | m.IsTile(b) && m.IsTile(c) && m.Covers(b, x) && m.Covers(c, x) :: b == c
  {
    if x < m.totalSize {
      var p, k := TilesCoverFile(m, x);
      TileBounds(m, p, k);
      assert m.IsTile(m.Tile(p, k));
    }
    forall b, c | m.IsTile(b) && m.IsTile(c) && m.Covers(b, x) && m.Covers(c, x)
      ensures b == c && x < m.totalSize
    {
      TilesDisjoint(m, b.piece, Index(b), c.piece, Index(c), x);
      TileBounds(m, b.piece, Index(b));
      PieceInFile(m, b.piece);
    }
  }

  lemma {:induction false} BlockBytesPrefix(m: Meta, p: nat, k: nat)
    requires m.WellFormed() && p < m.totalPieces && k <= m.BlocksIn(p)
    ensures BlockBytes(m, p, k) == Min(k * PIECE_BLOCK_SIZE, m.PieceLen(p))
  {
    if k > 0 {
      BlockBytesPrefix(m, p, k - 1);
      TileBounds(m, p, k - 1);
    }
  }

  lemma {:induction false} PieceBytesPrefix(m: Meta, n: nat)
    requires m.WellFormed() && n <= m.totalPieces
    ensures PieceBytes(m, n) == if n == m.totalPieces then m.totalSize else m.Start(n)
  {
    if n > 0 {
      PieceBytesPrefix(m, n - 1);
      PieceInFile(m, n - 1);
    }
  }

  /** Block lengths add up to the piece, and pieces add up to the file. */
  lemma LengthsAddUp(m: Meta)
    requires m.WellFormed()
    ensures forall p: nat | p < m.totalPieces :: BlockBytes(m, p, m.BlocksIn(p)) == m.PieceLen(p)
    ensures PieceBytes(m, m.totalPieces) == m.totalSize
  {
    forall p: nat | p < m.totalPieces
      ensures BlockBytes(m, p, m.BlocksIn(p)) == m.PieceLen(p)
    {
      BlockBytesPrefix(m, p, m.BlocksIn(p));
      PieceInFile(m, p);
    }
    PieceBytesPrefix(m, m.totalPieces);
  }

  /** The first n pieces of a file. */
  function Chunks(m: Meta, file: bytes, n: nat): (parts: seq<bytes>)
    requires m.WellFormed() && |file| == m.totalSize && n <= m.totalPieces
    ensures |parts| == n
    ensures forall p: nat | p < n :: parts[p] == m.Chunk(file, p)
  {
    if n == 0 then [] else Chunks(m, file, n - 1) + [m.Chunk(file, n - 1)]
  }

  lemma ChunkExtendsPrefix(m: Meta, file: bytes, p: nat)
    requires m.WellFormed() && |file| == m.totalSize && p < m.totalPieces
    ensures PieceBytes(m, p) == m.Start(p)
    ensures PieceBytes(m, p + 1) == m.Start(p) + m.PieceLen(p) <= m.totalSize
    ensures file[..PieceBytes(m, p)] + m.Chunk(file, p) == file[..PieceBytes(m, p + 1)]
  {
    PieceBytesPrefix(m, p);
    PieceBytesPrefix(m, p + 1);
    PieceInFile(m, p);
    hide Meta.WellFormed, Meta.PieceLen, Meta.Start;
  }

  lemma NoChunks(m: Meta, file: bytes)
    requires m.WellFormed() && |file| == m.totalSize
    ensures PieceBytes(m, 0) == 0 && Chunks(m, file, 0) == [] && file[..0] == []
  {
  }

  /** The pieces of a file, concatenated in order, are the file. */
  lemma {:induction false} ChunksRebuildFile(m: Meta, file: bytes, n: nat)
    requires m.WellFormed() && |file| == m.totalSize && n <= m.totalPieces
    ensures PieceBytes(m, n) <= m.totalSize
    ensures Flatten(Chunks(m, file, n)) == file[..PieceBytes(m, n)]
  {
    hide Meta.WellFormed, Meta.PieceLen, Meta.Start, Meta.Chunk, PieceBytes;
    if n == 0 {
      NoChunks(m, file);
    } else {
      ChunkExtendsPrefix(m, file, n - 1);
      ChunksRebuildFile(m, file, n - 1);
      FlattenSnoc(Chunks(m, file, n - 1), m.Chunk(file, n - 1));
    }
  }
}
