/** Listing, chunking and compressing: the sender's loops. */
module FileSender {
  import opened Octets
  import opened Options
  import opened FileTree

  datatype Chunk = Chunk(path: Path, fileType: FileType, target: string, data: Bytes, mode: nat)

  // ----- Listing -----

  class SendOp {
    var resolvedFiles: seq<FileInfo>
    var totalCount: nat
    var topDirBasenames: seq<Name>

    constructor ()
      ensures resolvedFiles == [] && totalCount == 0 && topDirBasenames == []
    {
      resolvedFiles, totalCount, topDirBasenames := [], 0, [];
    }

    method AddFile(path: Path, node: Node)
      modifies `resolvedFiles, `totalCount
      ensures resolvedFiles == old(resolvedFiles) + [InfoOf(path, node)] && totalCount == old(totalCount) + 1
    {
      resolvedFiles := resolvedFiles + [InfoOf(path, node)];
      totalCount := totalCount + 1;
    }

    /** One entry, followed by everything below it if it is a folder. */
    method AddTree(path: Path, node: Node)
      modifies `resolvedFiles, `totalCount
      ensures resolvedFiles == old(resolvedFiles) + WalkNode(path, node)
      ensures totalCount == old(totalCount) + |WalkNode(path, node)|
      decreases node, 1
    {
      AddFile(path, node);
      if node.Dir? {
        ProcessFolder(path, node.children);
      }
    }

    /** Lists the children of a folder in order. */
    method ProcessFolder(folder: Path, children: Forest)
      modifies `resolvedFiles, `totalCount
      ensures resolvedFiles == old(resolvedFiles) + Walk(folder, children)
      ensures totalCount == old(totalCount) + |Walk(folder, children)|
      decreases children, 0
    {
      var i := 0;
      assert children[0..] == children;
      while i < |children|
        invariant i <= |children|
        invariant resolvedFiles + Walk(folder, children[i..]) == old(resolvedFiles) + Walk(folder, children)
        invariant totalCount + |Walk(folder, children[i..])| == old(totalCount) + |Walk(folder, children)|
      {
        WalkStep(folder, children, i, resolvedFiles);
        AddTree(folder + [children[i].name], children[i].node);
        i := i + 1;
      }
    }

    method GatherFileInfo(uris: Forest)
      modifies this
      ensures resolvedFiles == old(resolvedFiles) + Walk([], uris)
      ensures totalCount == old(totalCount) + |Walk([], uris)|
      ensures topDirBasenames == Names(uris)
    {
      var names := [];
      var i := 0;
      assert uris[0..] == uris;
      while i < |uris|
        invariant i <= |uris|
        invariant names == Names(uris[..i])
        invariant resolvedFiles + Walk([], uris[i..]) == old(resolvedFiles) + Walk([], uris)
        invariant totalCount + |Walk([], uris[i..])| == old(totalCount) + |Walk([], uris)|
      {
        names := names + [uris[i].name];
        WalkStep([], uris, i, resolvedFiles);
        AddTree([] + [uris[i].name], uris[i].node);
        i := i + 1;
      }
      assert uris[..i] == uris;
      topDirBasenames := names;
    }
  }

  function Names(es: Forest): (ns: seq<Name>)
    ensures |ns| == |es| && forall i | 0 <= i < |es| :: ns[i] == es[i].name
  {
    seq(|es|, i requires 0 <= i < |es| => es[i].name)
  }

  lemma WalkStep(prefix: Path, es: Forest, i: nat, before: seq<FileInfo>)
    requires i < |es|
    ensures before + WalkNode(prefix + [es[i].name], es[i].node) + Walk(prefix, es[i + 1..])
            == before + Walk(prefix, es[i..])
    ensures |Walk(prefix, es[i..])| == |WalkNode(prefix + [es[i].name], es[i].node)| + |Walk(prefix, es[i + 1..])|
  {
    assert es[i..][1..] == es[i + 1..];
  }

  // ----- Chunking -----

  /** The blocks a file is read in: a short, possibly empty, block ends it. */
  function Blocks(bytes: Bytes, blockSize: nat): (bs: seq<Bytes>)
    requires blockSize > 0
    ensures bs != []
  {
    if |bytes| < blockSize then [bytes] else [bytes[..blockSize]] + Blocks(bytes[blockSize..], blockSize)
  }

  function ChunkOf(info: FileInfo, data: Bytes): Chunk {
    Chunk(info.path, info.fileType, info.target, data, info.mode)
  }

  function BlockChunks(info: FileInfo, blocks: seq<Bytes>): (cs: seq<Chunk>)
    ensures |cs| == |blocks|
    ensures forall i | 0 <= i < |cs| :: cs[i] == ChunkOf(info, blocks[i])
  {
    seq(|blocks|, i requires 0 <= i < |blocks| => ChunkOf(info, blocks[i]))
  }

  function ChunksOf(info: FileInfo, blockSize: nat): (cs: seq<Chunk>)
    requires blockSize > 0
    ensures cs != []
    ensures forall i | 0 <= i < |cs| :: cs[i].path == info.path
  {
    if info.fileType == Directory || info.fileType == SymbolicLink then [ChunkOf(info, [])]
    else BlockChunks(info, Blocks(info.bytes, blockSize))
  }

  function AllChunks(infos: seq<FileInfo>, blockSize: nat): seq<Chunk>
    requires blockSize > 0
  {
    if infos == [] then [] else ChunksOf(infos[0], blockSize) + AllChunks(infos[1..], blockSize)
  }

  lemma NextBlock(bytes: Bytes, pos: nat, end: nat, blockSize: nat)
    requires blockSize > 0 && pos <= |bytes|
    requires end == if |bytes| - pos < blockSize then |bytes| else pos + blockSize
    ensures Blocks(bytes[pos..], blockSize)
         == [bytes[pos..end]] + (if end - pos < blockSize then [] else Blocks(bytes[end..], blockSize))
  {
    var left := bytes[pos..];
    if |left| < blockSize {
      assert bytes[pos..end] == left;
    } else {
      assert left[..blockSize] == bytes[pos..end] && left[blockSize..] == bytes[end..];
    }
  }

  lemma NextChunk(info: FileInfo, b: Bytes, rest: seq<Bytes>, before: seq<Chunk>)
    ensures before + BlockChunks(info, [b] + rest) == before + [ChunkOf(info, b)] + BlockChunks(info, rest)
  {
    assert BlockChunks(info, [b] + rest) == [ChunkOf(info, b)] + BlockChunks(info, rest);
  }

  method ReadFile(info: FileInfo, blockSize: nat) returns (chunks: seq<Chunk>)
    requires blockSize > 0
    ensures chunks == BlockChunks(info, Blocks(info.bytes, blockSize))
  {
    chunks := [];
    var pos, fileDone := 0, false;
    ghost var rest := Blocks(info.bytes, blockSize);
    assert info.bytes[0..] == info.bytes;
    while !fileDone
      invariant pos <= |info.bytes|
      invariant chunks + BlockChunks(info, rest) == BlockChunks(info, Blocks(info.bytes, blockSize))
      invariant rest == if fileDone then [] else Blocks(info.bytes[pos..], blockSize)
      decreases !fileDone, |info.bytes| - pos
    {
      var end := if |info.bytes| - pos < blockSize then |info.bytes| else pos + blockSize;
      var b := info.bytes[pos..end];
      NextBlock(info.bytes, pos, end, blockSize);
      if |b| < blockSize {
        fileDone := true;
      }
      rest := if fileDone then [] else Blocks(info.bytes[end..], blockSize);
      NextChunk(info, b, rest, chunks);
      chunks := chunks + [ChunkOf(info, b)];
      pos := end;
    }
  }

  method SendFile(file: FileInfo, blockSize: nat) returns (chunks: seq<Chunk>)
    requires blockSize > 0
    ensures chunks == ChunksOf(file, blockSize)
  {
    if file.fileType == Directory || file.fileType == SymbolicLink {
      chunks := [ChunkOf(file, [])];
    } else {
      chunks := ReadFile(file, blockSize);
    }
  }

  /** Everything one transfer sends, file after file. */
  method ReadChunks(files: seq<FileInfo>, blockSize: nat) returns (chunks: seq<Chunk>)
    requires blockSize > 0
    ensures chunks == AllChunks(files, blockSize)
  {
    chunks := [];
    var i := 0;
    assert files[0..] == files;
    while i < |files|
      invariant i <= |files|
      invariant chunks + AllChunks(files[i..], blockSize) == AllChunks(files, blockSize)
    {
      var cs := SendFile(files[i], blockSize);
      AllChunksStep(files, i, blockSize, chunks, cs);
      chunks := chunks + cs;
      i := i + 1;
    }
  }

  lemma AllChunksStep(files: seq<FileInfo>, i: nat, blockSize: nat, chunks: seq<Chunk>, cs: seq<Chunk>)
    requires i < |files| && blockSize > 0 && cs == ChunksOf(files[i], blockSize)
    ensures (chunks + cs) + AllChunks(files[i + 1..], blockSize) == chunks + AllChunks(files[i..], blockSize)
  {
    assert files[i..][1..] == files[i + 1..];
  }

  function Joined(blocks: seq<Bytes>): Bytes {
    if blocks == [] then [] else blocks[0] + Joined(blocks[1..])
  }

  lemma {:induction false} BlocksJoin(bytes: Bytes, blockSize: nat)
    requires blockSize > 0
    ensures Joined(Blocks(bytes, blockSize)) == bytes
    ensures forall i | 0 <= i < |Blocks(bytes, blockSize)| - 1 :: |Blocks(bytes, blockSize)[i]| == blockSize
    ensures |Blocks(bytes, blockSize)[|Blocks(bytes, blockSize)| - 1]| < blockSize
    decreases |bytes|
  {
    if |bytes| < blockSize {
      assert Joined([bytes]) == bytes + Joined([]);
    } else {
      BlocksJoin(bytes[blockSize..], blockSize);
      var bs, rest := Blocks(bytes, blockSize), Blocks(bytes[blockSize..], blockSize);
      assert bs[1..] == rest;
    }
  }

  // ----- Compression -----

  /** zlib as far as it matters: a pair of functions on blocks. */
  datatype Codec = Codec(compress: Bytes -> Bytes, decompress: Bytes -> Option<Bytes>)

  /** Decompression inverts compression, and compressed data is never empty. */
  ghost predicate Lossless(codec: Codec) {
    forall b: Bytes :: codec.compress(b) != [] && codec.decompress(codec.compress(b)) == Some(b)
  }

  function Deflated(codec: Codec, chunk: Chunk): Chunk {
    if chunk.data == [] then chunk else chunk.(data := codec.compress(chunk.data))
  }

  function Inflated(codec: Codec, chunk: Chunk): Option<Chunk> {
    if chunk.data == [] then Some(chunk)
    else
      match codec.decompress(chunk.data)
      case None => None
      case Some(data) => Some(chunk.(data := data))
  }

  method Compressor(codec: Codec, response: seq<Chunk>) returns (wire: seq<Chunk>)
    ensures |wire| == |response|
    ensures forall i | 0 <= i < |wire| :: wire[i] == Deflated(codec, response[i])
  {
    wire := [];
    var i := 0;
    while i < |response|
      invariant i == |wire| <= |response|
      invariant forall j | 0 <= j < i :: wire[j] == Deflated(codec, response[j])
    {
      var chunk := response[i];
      if chunk.data != [] {
        chunk := chunk.(data := codec.compress(chunk.data));
      }
      wire := wire + [chunk];
      i := i + 1;
    }
  }

  /** The receiver's end of a compressed stream; a block that does not inflate arrives as None. */
  method Decompressor(codec: Codec, wire: seq<Chunk>) returns (stream: seq<Option<Chunk>>)
    ensures |stream| == |wire|
    ensures forall i | 0 <= i < |wire| :: stream[i] == Inflated(codec, wire[i])
  {
    stream := [];
    var i := 0;
    while i < |wire|
      invariant i == |stream| <= |wire|
      invariant forall j | 0 <= j < i :: stream[j] == Inflated(codec, wire[j])
    {
      var chunk := wire[i];
      if chunk.data == [] {
        stream := stream + [Some(chunk)];
      } else {
        match codec.decompress(chunk.data)
        case None => stream := stream + [None];
        case Some(data) => stream := stream + [Some(chunk.(data := data))];
      }
      i := i + 1;
    }
  }

  /** Inflating what was deflated gives the chunk back; an empty block is empty on the wire, and no other one is. */
  lemma InflateDeflate(codec: Codec, chunk: Chunk)
    requires Lossless(codec)
    ensures Inflated(codec, Deflated(codec, chunk)) == Some(chunk)
    ensures Deflated(codec, chunk).data == [] <==> chunk.data == []
  {
    if chunk.data != [] {
      assert codec.compress(chunk.data) != [];
    }
  }
}
