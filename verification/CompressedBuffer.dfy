/** The compressed random-access buffer: full blocks kept compressed, the last
    partial block plain, and the block decompressed last cached.  zlib is a pair of
    functions of which decompression undoes compression. */
module CompressedBuffer {
  import opened Common

  const BLOCK_SIZE := 4096

  datatype Codec = Codec(compress: seq<byte> -> seq<byte>, decompress: seq<byte> -> Option<seq<byte>>) {
    /** What zlib promises for blocks. */
    ghost predicate Lossless() {
      forall x: seq<byte> :: |x| == BLOCK_SIZE ==> decompress(compress(x)) == Some(x)
    }
  }

  /** Block i of the data written. */
  function Block(data: seq<byte>, i: nat): seq<byte>
    requires BLOCK_SIZE * (i + 1) <= |data|
  {
    data[BLOCK_SIZE * i..BLOCK_SIZE * (i + 1)]
  }

  function SizeOf(blocks: seq<seq<byte>>): nat {
    if blocks == [] then 0 else SizeOf(blocks[..|blocks| - 1]) + |blocks[|blocks| - 1]|
  }

  /** The blocks are the compressed data up to the last full block, writeBuf is the rest. */
  ghost predicate Stores(codec: Codec, blocks: seq<seq<byte>>, writeBuf: seq<byte>, data: seq<byte>) {
    && |data| == BLOCK_SIZE * |blocks| + |writeBuf|
    && (forall i :: 0 <= i < |blocks| ==> blocks[i] == codec.compress(Block(data, i)))
    && writeBuf == data[BLOCK_SIZE * |blocks|..]
  }

  class Buffer {
    const codec: Codec
    var blocks: seq<seq<byte>>
    var size: nat
    var compressedSize: nat
    var writeBuf: seq<byte>
    var lastDecompIndex: nat
    var lastDecompBlock: Option<seq<byte>>
    ghost var data: seq<byte>                          // all that has been written

    ghost predicate Valid()
      reads this
    {
      && codec.Lossless() && Stores(codec, blocks, writeBuf, data) && |writeBuf| < BLOCK_SIZE
      && size == |data| && compressedSize == SizeOf(blocks) && CacheOk()
    }

    /** The cached block is what its compressed form stands for. */
    ghost predicate CacheOk()
      reads this
    {
      lastDecompBlock.Some? ==>
        && lastDecompIndex < |blocks| && BLOCK_SIZE * (lastDecompIndex + 1) <= |data|
        && lastDecompBlock.value == Block(data, lastDecompIndex)
    }

    constructor (c: Codec)
      requires c.Lossless()
      ensures Valid() && data == []
    {
      codec := c;
      blocks, size, compressedSize, writeBuf, lastDecompIndex, lastDecompBlock, data := [], 0, 0, [], 0, None, [];
    }

    /** The source panics on any other length. */
    method AppendBlock(p: seq<byte>)
      requires |p| == BLOCK_SIZE
      modifies this`blocks, this`compressedSize
      ensures blocks == old(blocks) + [codec.compress(p)]
      ensures compressedSize == old(compressedSize) + |codec.compress(p)|
    {
      var block := codec.compress(p);
      compressedSize := compressedSize + |block|;
      blocks := blocks + [block];
    }

    method FlushWriter()
      requires |writeBuf| == BLOCK_SIZE
      modifies this`blocks, this`compressedSize, this`writeBuf
      ensures blocks == old(blocks) + [codec.compress(old(writeBuf))] && writeBuf == []
      ensures compressedSize == old(compressedSize) + |codec.compress(old(writeBuf))|
    {
      AppendBlock(writeBuf);
      writeBuf := [];
    }

    /** One turn of the loop of Write. */
    method WriteSome(p: seq<byte>) returns (writeLen: nat)
      requires Valid() && p != []
      modifies this
      ensures Valid() && 0 < writeLen <= |p| && data == old(data) + p[..writeLen]
    {
      hide SizeOf, Block, Codec.Lossless;
      var rem := BLOCK_SIZE - |writeBuf|;
      writeLen := |p|;
      if writeLen > rem {
        writeLen := rem;
      }
      ghost var was := data;
      data := data + p[..writeLen];
      if writeLen == BLOCK_SIZE {
        AppendBlock(p[..writeLen]);
        StoresBlock(codec, old(blocks), was, p[..writeLen]);
      } else {
        writeBuf := writeBuf + p[..writeLen];
        StoresMore(codec, blocks, old(writeBuf), was, p[..writeLen]);
      }
      size := size + writeLen;
      if |writeBuf| == BLOCK_SIZE {
        StoresFull(codec, blocks, writeBuf, data);
        FlushWriter();
      }
      SizeOfAppend(old(blocks), blocks);
      if lastDecompBlock.Some? { BlockKept(was, p[..writeLen], lastDecompIndex); }
    }

    method Write(p: seq<byte>) returns (written: nat)
      requires Valid()
      modifies this
      ensures Valid() && written == |p| && data == old(data) + p
    {
      written := 0;
      var rest := p;
      while rest != []
        invariant Valid() && written <= |p| && rest == p[written..] && data == old(data) + p[..written]
        decreases |rest|
      {
        var writeLen := WriteSome(rest);
        assert p[..written] + rest[..writeLen] == p[..written + writeLen];
        written := written + writeLen;
        rest := rest[writeLen..];
      }
    }

    function Size(): (n: nat)
      requires Valid()
      reads this
      ensures n == |data|
    {
      size
    }

    function CompressedSize(): (n: nat)
      requires Valid()
      reads this
      ensures n == SizeOf(blocks) + |data| % BLOCK_SIZE
    {
      compressedSize + |writeBuf|
    }

    /** The cache makes no difference to the result: it is always the block written. */
    method ReadBlock(i: nat) returns (buf: seq<byte>)
      requires Valid() && i < |blocks|
      modifies this`lastDecompIndex, this`lastDecompBlock
      ensures Valid() && BLOCK_SIZE * (i + 1) <= |data| && buf == Block(data, i)
      ensures lastDecompBlock == Some(buf) && lastDecompIndex == i
    {
      if lastDecompBlock.Some? && lastDecompIndex == i {
        return lastDecompBlock.value;
      }
      var out := codec.decompress(blocks[i]);
      assert out == Some(Block(data, i));
      buf := out.value;
      lastDecompBlock := Some(buf);
      lastDecompIndex := i;
    }

    /** The stored bytes from pos on, up to the end of their block. */
    method Stored(pos: nat) returns (src: seq<byte>)
      requires Valid() && pos < |data|
      modifies this`lastDecompIndex, this`lastDecompBlock
      ensures Valid() && src != [] && pos + |src| <= |data| && src == data[pos..pos + |src|]
    {
      var block := pos / BLOCK_SIZE;
      var blockOff := pos % BLOCK_SIZE;
      var blockBuf;
      if block == |blocks| {
        blockBuf := writeBuf;
      } else {
        blockBuf := ReadBlock(block);
      }
      src := blockBuf[blockOff..];
    }

    /** Reads from off on; eof is io.EOF.  False is the panic of an index below 0,
        with nothing read. */
    method ReadAt(p: array<byte>, off: int) returns (bytesRead: nat, eof: bool, ok: bool)
      requires Valid()
      modifies this`lastDecompIndex, this`lastDecompBlock, p
      ensures Valid()
      ensures ok <==> off >= 0 || p.Length == 0
      ensures ok ==> bytesRead == Min(p.Length, if off <= |data| then |data| - off else 0)
      ensures !ok ==> bytesRead == 0
      ensures bytesRead > 0 ==> p[..bytesRead] == data[off..off + bytesRead]
      ensures p[bytesRead..] == old(p[bytesRead..])
      ensures eof <==> ok && p.Length > 0 && off + p.Length > |data|
    {
      hide Stores, SizeOf, Block, Codec.Lossless;
      bytesRead := 0;
      eof, ok := false, true;
      var pos := off;
      ghost var was := p[..];
      while bytesRead < p.Length
        invariant Valid() && bytesRead <= p.Length && pos == off + bytesRead && (bytesRead > 0 ==> off >= 0)
        invariant bytesRead > 0 ==> pos <= |data| && p[..bytesRead] == data[off..pos]
        invariant p[bytesRead..] == was[bytesRead..]
        decreases p.Length - bytesRead
      {
        if pos >= size {
          eof := true;
          return;
        }
        if pos < 0 {
          // The index of the block, or the offset in it, is negative.
          ok := false;
          return;
        }
        var src := Stored(pos);
        var n := Min(p.Length - bytesRead, |src|);
        CopyTo(p, bytesRead, src[..n]);
        Joined(data, off, pos, |src|, n);
        assert was[bytesRead..][n..] == was[bytesRead + n..];
        bytesRead := bytesRead + n;
        pos := pos + n;
      }
    }
  }

  lemma Joined(d: seq<byte>, off: nat, pos: nat, m: nat, n: nat)
    requires off <= pos && pos + m <= |d| && n <= m
    ensures d[off..pos] + d[pos..pos + m][..n] == d[off..pos + n]
  {}

  /** Go's copy. */
  method CopyTo(p: array<byte>, at: nat, src: seq<byte>)
    requires at + |src| <= p.Length
    modifies p
    ensures p[..at + |src|] == old(p[..at]) + src && p[at + |src|..] == old(p[at..])[|src|..]
  {
    forall k | 0 <= k < |src| {
      p[at + k] := src[k];
    }
  }

  /** A whole block is written straight to the store. */
  lemma StoresBlock(codec: Codec, blocks: seq<seq<byte>>, data: seq<byte>, p: seq<byte>)
    requires Stores(codec, blocks, [], data) && |p| == BLOCK_SIZE
    ensures Stores(codec, blocks + [codec.compress(p)], [], data + p)
  {
    var (data', blocks') := (data + p, blocks + [codec.compress(p)]);
    assert Block(data', |blocks|) == p;
    forall i | 0 <= i < |blocks| ensures blocks'[i] == codec.compress(Block(data', i)) { BlockKept(data, p, i); }
  }

  lemma StoresMore(codec: Codec, blocks: seq<seq<byte>>, writeBuf: seq<byte>, data: seq<byte>, p: seq<byte>)
    requires Stores(codec, blocks, writeBuf, data)
    ensures Stores(codec, blocks, writeBuf + p, data + p)
  {
    forall i | 0 <= i < |blocks| ensures blocks[i] == codec.compress(Block(data + p, i)) { BlockKept(data, p, i); }
  }

  /** A full writeBuf becomes a block. */
  lemma StoresFull(codec: Codec, blocks: seq<seq<byte>>, writeBuf: seq<byte>, data: seq<byte>)
    requires Stores(codec, blocks, writeBuf, data) && |writeBuf| == BLOCK_SIZE
    ensures Stores(codec, blocks + [codec.compress(writeBuf)], [], data)
  {
    assert Block(data, |blocks|) == writeBuf;
  }

  lemma BlockKept(data: seq<byte>, p: seq<byte>, i: nat)
    requires BLOCK_SIZE * (i + 1) <= |data|
    ensures Block(data + p, i) == Block(data, i)
  {}

  lemma SizeOfAppend(blocks: seq<seq<byte>>, blocks': seq<seq<byte>>)
    requires blocks' == blocks || (|blocks'| == |blocks| + 1 && blocks'[..|blocks|] == blocks)
    ensures SizeOf(blocks') == SizeOf(blocks) + if blocks' == blocks then 0 else |blocks'[|blocks|]|
  {}
}
