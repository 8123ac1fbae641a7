/**
 The reader under the node parser: a file cursor that goes either straight to the file or through
 three cache blocks, the parser itself, and the fetching of node properties.
 */
module FileLoading {
  import opened Basics
  import opened NodeFormat

  const CACHE_BLOCKS: nat := 3
  const NO_VALID_CACHE: nat := 0xFFFFFFFF

  /** The bits of `p` that are not set in `m`, that is p & ~m. */
  function AndNot(p: nat, m: nat): (r: nat)
    ensures r <= p <= r + m
  {
    if p == 0 then 0
    else 2 * AndNot(p / 2, m / 2) + (if p % 2 == 1 && m % 2 == 0 then 1 else 0)
  }

  /** The cache block size that openFile picks; it need not be a power of two (24576 is possible). */
  function CacheSizeFor(fileSize: nat): (size: nat)
    ensures 0 < size <= 0x8000
  {
    AndNot(Min(0x8000, Max(fileSize / 20, 0x2000)), 0x1FFF)
  }

  /** Where the cache block for a position starts. */
  function BlockBase(pos: nat, cacheSize: nat): (base: nat)
    requires cacheSize > 0
    ensures base <= pos < base + cacheSize
  {
    AndNot(pos, cacheSize - 1)
  }

  /** What one read of `size` bytes at `base` delivers: less than asked for at the end of the file. */
  function Chunk(file: seq<Byte>, base: nat, size: nat): seq<Byte>
  {
    file[Min(base, |file|)..Min(base + size, |file|)]
  }

  lemma ChunkAt(file: seq<Byte>, base: nat, size: nat)
    ensures var c := Chunk(file, base, size);
      && |c| == Max(0, Min(base + size, |file|) - base)
      && forall k :: 0 <= k < |c| ==> base + k < |file| && c[k] == file[base + k]
  {}

  /** How many bytes one pass of the cached read loop copies at `pos`. */
  function Reading(file: seq<Byte>, cacheSize: nat, pos: nat, remain: nat): int
    requires cacheSize > 0
  {
    var base := BlockBase(pos, cacheSize);
    Min(remain, |Chunk(file, base, cacheSize)| - (pos - base))
  }

  /**
   A pass makes progress exactly while there is something left to read and the file has not ended;
   at the end of the file the loop would repeat forever.
   */
  lemma ReadingProgress(file: seq<Byte>, cacheSize: nat, pos: nat, remain: nat)
    requires cacheSize > 0 && pos <= |file|
    ensures 0 <= Reading(file, cacheSize, pos, remain) <= Min(remain, |file| - pos)
    ensures Reading(file, cacheSize, pos, remain) == 0 <==> remain == 0 || pos == |file|
  {
    ChunkAt(file, BlockBase(pos, cacheSize), cacheSize);
  }

  /** What one pass takes from its block is what stands in the file. */
  lemma ReadingShown(file: seq<Byte>, cacheSize: nat, pos: nat, remain: nat)
    requires cacheSize > 0 && pos <= |file|
    ensures var base, n := BlockBase(pos, cacheSize), Reading(file, cacheSize, pos, remain);
            var c := Chunk(file, base, cacheSize);
            && n == Min(remain, |c| - (pos - base)) && 0 <= n <= |file| - pos
            && c[pos - base..pos - base + n] == file[pos..pos + n]
  {
    ReadingProgress(file, cacheSize, pos, remain);
    hide Chunk;
    var base, n := BlockBase(pos, cacheSize), Reading(file, cacheSize, pos, remain);
    ChunkAt(file, base, cacheSize);
  }

  /** Where the loop is, and what remains, after `n` passes. */
  function Passes(file: seq<Byte>, cacheSize: nat, pos: nat, remain: nat, n: nat): (r: (nat, nat))
    requires cacheSize > 0 && pos <= |file|
    ensures r.0 <= |file| && r.0 + r.1 == pos + remain
    decreases n
  {
    if n == 0 then (pos, remain)
    else
      ReadingProgress(file, cacheSize, pos, remain);
      var reading := Reading(file, cacheSize, pos, remain);
      Passes(file, cacheSize, pos + reading, remain - reading, n - 1)
  }

  /** From inside the file the loop comes to its end exactly when all the bytes asked for are in the file. */
  lemma ReadingEndsExactly(file: seq<Byte>, cacheSize: nat, pos: nat, size: nat)
    requires cacheSize > 0 && pos <= |file|
    ensures (exists n :: Passes(file, cacheSize, pos, size, n).1 == 0) <==> pos + size <= |file|
  {
    if pos + size <= |file| {
      var n := PassesNeeded(file, cacheSize, pos, size);
      assert Passes(file, cacheSize, pos, size, n).1 == 0;
    }
  }

  lemma {:induction false} PassesNeeded(file: seq<Byte>, cacheSize: nat, pos: nat, remain: nat) returns (n: nat)
    requires cacheSize > 0 && pos + remain <= |file|
    ensures Passes(file, cacheSize, pos, remain, n).1 == 0
    decreases remain
  {
    hide Reading, BlockBase, Chunk, AndNot;
    if remain == 0 {
      n := 0;
    } else {
      ReadingProgress(file, cacheSize, pos, remain);
      var reading := Reading(file, cacheSize, pos, remain);
      var more := PassesNeeded(file, cacheSize, pos + reading, remain - reading);
      n := more + 1;
    }
  }

  /** One cache block; `data` holds the bytes that were read, so its length is the `size` field. */
  datatype Block = Block(loaded: bool, base: nat, data: seq<Byte>)

  /** A block is far from a base when more than two cache sizes lie between them. */
  predicate Far(b: Block, base: nat, cacheSize: nat)
  {
    b.base > base + 2 * cacheSize || base > b.base + 2 * cacheSize
  }

  /** The block that is given up for a new one: a free one, else the first that is far, else the first. */
  function Victim(blocks: seq<Block>, base: nat, cacheSize: nat): (k: nat)
    requires |blocks| == CACHE_BLOCKS
    ensures k < CACHE_BLOCKS
  {
    if !blocks[0].loaded then 0
    else if !blocks[1].loaded then 1
    else if !blocks[2].loaded then 2
    else if Far(blocks[0], base, cacheSize) then 0
    else if Far(blocks[1], base, cacheSize) then 1
    else if Far(blocks[2], base, cacheSize) then 2
    else 0
  }

  // ---------------------------------------------------------------- plain cursor

  /** The same interface over a plain cursor into the file. */
  datatype Op = Seek(pos: nat) | Tell | GetByte | GetBytes(pos: nat, size: nat)

  datatype Reply = Reply(ok: bool, data: seq<Byte>, at: int)

  predicate InRange(file: seq<Byte>, op: Op)
  {
    match op
    case Seek(pos) => pos <= |file|
    case GetBytes(pos, size) => pos + size <= |file|
    case _ => true
  }

  /** New cursor and answer of one operation on a plain file. */
  function PlainStep(file: seq<Byte>, cur: nat, op: Op): (r: (nat, Reply))
    requires cur <= |file| && InRange(file, op)
    ensures r.0 <= |file|
  {
    match op
    case Seek(pos) => (pos, Reply(true, [], 0))
    case Tell => (cur, Reply(true, [], cur - 1))
    case GetByte =>
      if cur < |file| then (cur + 1, Reply(true, [file[cur]], 0)) else (cur, Reply(false, [], 0))
    case GetBytes(pos, size) => (pos + size, Reply(true, file[pos..pos + size], 0))
  }

  function PlainRun(file: seq<Byte>, cur: nat, ops: seq<Op>): (r: (nat, seq<Reply>))
    requires cur <= |file| && forall op | op in ops :: InRange(file, op)
    ensures r.0 <= |file|
    decreases |ops|
  {
    if ops == [] then (cur, [])
    else
      var last := |ops| - 1;
      var before := PlainRun(file, cur, ops[..last]);
      var step := PlainStep(file, before.0, ops[last]);
      (step.0, before.1 + [step.1])
  }

  // ---------------------------------------------------------------- nodes

  class NodeStruct {
    var start: nat
    var propsSize: nat
    var typ: Byte
    var next: NodeStruct?
    var child: NodeStruct?

    constructor (start: nat)
      ensures this.start == start && next == null && child == null
    {
      this.start := start;
      propsSize, typ, next, child := 0, 0, null, null;
    }
  }

  /** The linked nodes at `n` are exactly the index `x`; all of them are in `fp`. */
  ghost predicate Rep(n: NodeStruct?, x: Index, fp: set<NodeStruct>)
    reads fp
    decreases x
  {
    match x
    case NoNode => n == null
    case Node(start, size, typ, child, next) =>
      && n != null && n in fp
      && n.start == start && n.propsSize == size && n.typ == typ
      && Rep(n.child, child, fp)
      && Rep(n.next, next, fp)
  }

  lemma {:induction false} RepMono(n: NodeStruct?, x: Index, fp: set<NodeStruct>, more: set<NodeStruct>)
    requires Rep(n, x, fp) && fp <= more
    ensures Rep(n, x, more)
    decreases x
  {
    if x.Node? {
      RepMono(n.child, x.child, fp, more);
      RepMono(n.next, x.next, fp, more);
    }
  }

  /** One node without its `next` link: its own fields and its children, which are in `fp`. */
  ghost predicate HasBody(n: NodeStruct, x: Index, fp: set<NodeStruct>)
    reads n`start, n`propsSize, n`typ, n`child, fp
  {
    && x.Node?
    && n.start == x.start && n.propsSize == x.size && n.typ == x.typ
    && Rep(n.child, x.child, fp)
  }

  ghost predicate Finished(n: NodeStruct, x: Index, fp: set<NodeStruct>)
    reads fp
  {
    n in fp && HasBody(n, x, fp)
  }

  /** The finished siblings, linked in order and ending in `last`. */
  ghost predicate Linked(trail: seq<NodeStruct>, shape: seq<Index>, last: NodeStruct?, fp: set<NodeStruct>)
    reads fp
  {
    && |trail| == |shape|
    && (forall k :: 0 <= k < |trail| ==> Finished(trail[k], shape[k], fp))
    && (forall k :: 0 <= k < |trail| ==> LinkedAt(trail, k, last))
  }

  ghost predicate LinkedAt(trail: seq<NodeStruct>, k: nat, last: NodeStruct?)
    requires k < |trail|
    reads trail[k]
  {
    trail[k].next == if k + 1 < |trail| then trail[k + 1] else last
  }

  /** The siblings of `shape`, then `x`. */
  function Chain(shape: seq<Index>, x: Index): Index
  {
    if shape == [] then x
    else if shape[0].NoNode? then x
    else shape[0].(next := Chain(shape[1..], x))
  }

  function Prepend(shape: seq<Index>, r: ParseResult): ParseResult
  {
    if r.Fail? then Fail else Ok(Chain(shape, r.index), r.pos)
  }

  lemma {:induction false} ChainSnoc(shape: seq<Index>, y: Index, x: Index)
    requires forall z | z in shape :: z.Node?
    requires y.Node?
    ensures Chain(shape + [y], x) == Chain(shape, y.(next := x))
  {
    if shape != [] {
      assert shape[0] in shape;
      assert (shape + [y])[0] == shape[0] && (shape + [y])[1..] == shape[1..] + [y];
      ChainSnoc(shape[1..], y, x);
    } else {
      assert shape + [y] == [y] && [y][1..] == [];
    }
  }

  lemma {:induction false} RepChain(trail: seq<NodeStruct>, shape: seq<Index>, last: NodeStruct?, x: Index, fp: set<NodeStruct>)
    requires Linked(trail, shape, last, fp) && Rep(last, x, fp)
    ensures Rep(if trail == [] then last else trail[0], Chain(shape, x), fp)
    decreases |trail|
  {
    if trail != [] {
      assert Finished(trail[0], shape[0], fp) && LinkedAt(trail, 0, last);
      forall k | 0 <= k < |trail[1..]|
        ensures Finished(trail[1..][k], shape[1..][k], fp)
        ensures LinkedAt(trail[1..], k, last)
      {
        assert Finished(trail[k + 1], shape[k + 1], fp) && LinkedAt(trail, k + 1, last);
      }
      RepChain(trail[1..], shape[1..], last, x, fp);
    }
  }

  /** A further finished node at the end of the siblings. */
  lemma LinkedSnoc(trail: seq<NodeStruct>, shape: seq<Index>, current: NodeStruct, x: Index, next: NodeStruct?,
                   fp: set<NodeStruct>, body: set<NodeStruct>, more: set<NodeStruct>)
    requires Linked(trail, shape, current, fp) && HasBody(current, x, body)
    requires fp <= more && body <= more && current in more && current.next == next
    ensures Linked(trail + [current], shape + [x], next, more)
  {
    RepMono(current.child, x.child, body, more);
    forall k | 0 <= k < |trail|
      ensures Finished(trail[k], shape[k], more) && LinkedAt(trail + [current], k, next)
    {
      assert Finished(trail[k], shape[k], fp) && LinkedAt(trail, k, current);
      RepMono(trail[k].child, shape[k].child, fp, more);
    }
  }

  lemma PrependNone(r: ParseResult)
    ensures Prepend([], r) == r
  {}

  lemma NothingLinked(n: NodeStruct)
    ensures Linked([], [], n, {})
  {}

  /** The siblings end, go on, or are malformed, by the byte behind the END byte at `e`. */
  lemma RestCases(s: seq<Byte>, e: nat, shape: seq<Index>)
    requires e < |s|
    ensures e + 1 == |s| || s[e + 1] == NODE_END ==>
              Prepend(shape, ParseRest(s, e)) == Ok(Chain(shape, NoNode), e + 1)
    ensures e + 1 < |s| && s[e + 1] == NODE_START ==> ParseRest(s, e) == Parse(s, e + 1)
    ensures e + 1 < |s| && !IsDelimiter(s[e + 1]) ==> Prepend(shape, ParseRest(s, e)) == Fail
  {}

  /** One step of the property scan. */
  lemma ScanOne(s: seq<Byte>, i: nat)
    requires i <= |s|
    ensures i == |s| ==> Scan(s, i) == None
    ensures i < |s| && IsDelimiter(s[i]) ==> Scan(s, i) == Some(i)
    ensures i < |s| && s[i] == ESCAPE_CHAR ==> Scan(s, i) == if i + 1 < |s| then Scan(s, i + 2) else None
    ensures i < |s| && !IsSpecial(s[i]) ==> Scan(s, i) == Scan(s, i + 1)
  {
  }

  lemma ParseNeedsBody(s: seq<Byte>, start: nat)
    requires start < |s| && Parse(s, start).Ok?
    ensures start + 1 < |s| && Scan(s, start + 2).Some?
    ensures var kids := ParseKids(s, Scan(s, start + 2).value); kids.Ok? && kids.pos < |s|
  {}

  /** What the parse of the siblings from `start` on is, once the body of the first is known. */
  lemma ParseByBody(s: seq<Byte>, start: nat, d: nat, x: Index, shape: seq<Index>)
    requires start + 1 < |s| && Scan(s, start + 2) == Some(d) && forall z | z in shape :: z.Node?
    requires ParseKids(s, d).Ok? && ParseKids(s, d).pos < |s|
    requires x == Node(start, d - start - 2, s[start + 1], ParseKids(s, d).index, NoNode)
    ensures Prepend(shape, Parse(s, start)) == Prepend(shape + [x], ParseRest(s, ParseKids(s, d).pos))
  {
    var rest := ParseRest(s, ParseKids(s, d).pos);
    if rest.Ok? {
      ChainSnoc(shape, x, rest.index);
    }
  }

  // ---------------------------------------------------------------- the loader

  class FileLoader {
    const file: seq<Byte>
    var filePos: nat
    var useCache: bool
    var cacheSize: nat
    const blocks: array<Block>
    var cacheIndex: nat
    var cacheOffset: nat
    var buffer: array<Byte>
    var root: NodeStruct?

    /** Every loaded block holds the bytes of the file at its base. */
    ghost predicate Faithful(b: Block)
      reads this`cacheSize
    {
      b.loaded ==> b.data == Chunk(file, b.base, cacheSize)
    }

    ghost predicate Valid()
      reads this`useCache, this`cacheSize, this`cacheIndex, this`cacheOffset, blocks
    {
      && blocks.Length == CACHE_BLOCKS
      && (useCache ==> cacheSize > 0)
      && (forall k :: 0 <= k < CACHE_BLOCKS ==> Faithful(blocks[k]))
      && (cacheIndex == NO_VALID_CACHE || (cacheIndex < CACHE_BLOCKS && blocks[cacheIndex].loaded))
    }

    /** There is a position to read from. */
    ghost predicate Attached()
      reads this`useCache, this`cacheIndex
    {
      useCache ==> cacheIndex != NO_VALID_CACHE
    }

    /** The position in the file that the next byte comes from. */
    ghost function Cursor(): nat
      requires Valid() && Attached()
      reads this`useCache, this`cacheSize, this`cacheIndex, this`cacheOffset, this`filePos, blocks
    {
      if useCache then blocks[cacheIndex].base + cacheOffset else filePos
    }

    constructor (file: seq<Byte>)
      ensures this.file == file && Valid() && !useCache && filePos == 0
      ensures fresh(blocks) && fresh(buffer) && buffer.Length == 1024
    {
      this.file := file;
      filePos, useCache, cacheSize := 0, false, 0;
      cacheIndex, cacheOffset := NO_VALID_CACHE, NO_VALID_CACHE;
      blocks := new Block[CACHE_BLOCKS](_ => Block(false, 0, []));
      buffer := new Byte[1024](_ => 0);
      root := null;
    }

    /** The two searches of loadCacheBlock: a free block, else the first one far away, else the first one. */
    method ChooseBlock(basePos: nat) returns (loading: int)
      requires blocks.Length == CACHE_BLOCKS
      ensures loading == Victim(blocks[..], basePos, cacheSize)
    {
      loading := -1;
      var i := 0;
      while i < CACHE_BLOCKS && loading == -1
        invariant 0 <= i <= CACHE_BLOCKS && -1 <= loading < CACHE_BLOCKS
        invariant forall k :: 0 <= k < (if loading == -1 then i else loading) ==> blocks[k].loaded
        invariant loading != -1 ==> !blocks[loading].loaded
      {
        if !blocks[i].loaded { loading := i; }
        i := i + 1;
      }
      if loading != -1 { return; }
      i := 0;
      while i < CACHE_BLOCKS && loading == -1
        invariant 0 <= i <= CACHE_BLOCKS && -1 <= loading < CACHE_BLOCKS
        invariant forall k :: 0 <= k < (if loading == -1 then i else loading) ==> !Far(blocks[k], basePos, cacheSize)
        invariant loading != -1 ==> Far(blocks[loading], basePos, cacheSize)
      {
        var distance := if blocks[i].base < basePos then basePos - blocks[i].base else blocks[i].base - basePos;
        if distance > 2 * cacheSize { loading := i; }
        i := i + 1;
      }
      if loading == -1 { loading := 0; }
    }

    /** Fills the chosen block; the answer is -1 when the file ends before `pos`. */
    method LoadCacheBlock(pos: nat) returns (loading: int)
      requires Valid() && useCache
      modifies blocks
      ensures Valid()
      ensures -1 <= loading < CACHE_BLOCKS && (pos <= |file| ==> loading >= 0)
      ensures loading >= 0 ==> blocks[loading].loaded && blocks[loading].base == BlockBase(pos, cacheSize)
      ensures var base := BlockBase(pos, cacheSize);
              var k, data := Victim(old(blocks[..]), base, cacheSize), Chunk(file, base, cacheSize);
              && loading == (if |data| < pos - base then -1 else k)
              && blocks[k] == Block(loading >= 0 || old(blocks[k].loaded), base, data)
              && forall other :: 0 <= other < CACHE_BLOCKS && other != k ==> blocks[other] == old(blocks[other])
    {
      hide Victim;
      var basePos := BlockBase(pos, cacheSize);
      loading := ChooseBlock(basePos);
      var data := Chunk(file, basePos, cacheSize);
      ChunkAt(file, basePos, cacheSize);
      blocks[loading] := Block(blocks[loading].loaded, basePos, data);
      if |data| < pos - basePos { return -1; }
      blocks[loading] := blocks[loading].(loaded := true);
    }

    ghost predicate Holds(base: nat)
      requires blocks.Length == CACHE_BLOCKS
      reads blocks
    {
      exists k :: 0 <= k < CACHE_BLOCKS && blocks[k].loaded && blocks[k].base == base
    }

    /** A loaded block for `pos`: one that is there already, or a new one. */
    method GetCacheBlock(pos: nat) returns (index: int)
      requires Valid() && useCache
      modifies blocks
      ensures Valid()
      ensures -1 <= index < CACHE_BLOCKS && (pos <= |file| ==> index >= 0)
      ensures index >= 0 ==> blocks[index].loaded && blocks[index].base == BlockBase(pos, cacheSize)
      ensures old(Holds(BlockBase(pos, cacheSize))) ==> index >= 0
    {
      var basePos := BlockBase(pos, cacheSize);
      index := 0;
      while index < CACHE_BLOCKS
        invariant 0 <= index <= CACHE_BLOCKS
        invariant forall k :: 0 <= k < index ==> !(blocks[k].loaded && blocks[k].base == basePos)
      {
        if blocks[index].loaded && blocks[index].base == basePos { return; }
        index := index + 1;
      }
      index := LoadCacheBlock(pos);
    }

    /** Goes to a position; with the cache this can fail, but never inside the file. */
    method SafeSeek(pos: nat) returns (ok: bool)
      requires Valid()
      modifies this`cacheIndex, this`cacheOffset, this`filePos, blocks
      ensures Valid()
      ensures ok ==> Attached() && Cursor() == pos
      ensures pos <= |file| ==> ok
    {
      if useCache {
        var i := GetCacheBlock(pos);
        if i < 0 { return false; }
        cacheIndex := i;
        cacheOffset := pos - blocks[i].base;
      } else {
        filePos := pos;
      }
      return true;
    }

    /** The position of the byte read last. */
    method SafeTell() returns (ok: bool, pos: int)
      requires Valid()
      ensures ok <==> Attached()
      ensures ok ==> pos == Cursor() - 1
    {
      pos := 0;
      if useCache {
        if cacheIndex == NO_VALID_CACHE { return false, pos; }
        pos := blocks[cacheIndex].base + cacheOffset - 1;
        return true, pos;
      }
      return true, filePos - 1;
    }

    /** The byte at the cursor, or failure at the end of the file with the cursor left in place. */
    method ReadByte() returns (ok: bool, value: Byte)
      requires Valid()
      modifies this`cacheIndex, this`cacheOffset, this`filePos, blocks
      ensures Valid()
      ensures old(Attached()) ==>
        && (ok <==> old(Cursor()) < |file|)
        && (ok ==> Attached() && value == file[old(Cursor())] && Cursor() == old(Cursor()) + 1)
        && (!ok && old(Cursor()) <= |file| ==> Attached() && Cursor() == old(Cursor()))
      ensures !old(Attached()) ==> !ok
    {
      hide Chunk, BlockBase;
      value := 0;
      if useCache {
        if cacheIndex == NO_VALID_CACHE { return false, value; }
        ChunkAt(file, blocks[cacheIndex].base, cacheSize);
        if cacheOffset >= |blocks[cacheIndex].data| {
          var pos := blocks[cacheIndex].base + cacheOffset;
          var tmp := GetCacheBlock(pos);
          if tmp < 0 { return false, value; }
          cacheIndex := tmp;
          cacheOffset := pos - blocks[cacheIndex].base;
          ChunkAt(file, blocks[cacheIndex].base, cacheSize);
          if cacheOffset >= |blocks[cacheIndex].data| { return false, value; }
        }
        value := blocks[cacheIndex].data[cacheOffset];
        cacheOffset := cacheOffset + 1;
        return true, value;
      }
      if filePos < |file| {
        value := file[filePos];
        filePos := filePos + 1;
        return true, value;
      }
      return false, value;
    }

    /** One pass of the cached read loop: what the block of `from` holds, at most `remain` bytes. */
    method ReadBlock(dst: array<Byte>, at: nat, from: nat, remain: nat) returns (reading: nat)
      requires Valid() && useCache && from + remain <= |file| && at + remain <= dst.Length
      modifies this`cacheIndex, this`cacheOffset, blocks, dst
      ensures Valid() && Attached() && Cursor() == from + reading
      ensures reading == Reading(file, cacheSize, from, remain)
      ensures dst[at..at + reading] == file[from..from + reading]
      ensures dst[..at] == old(dst[..at]) && dst[at + reading..] == old(dst[at + reading..])
    {
      hide Chunk, Reading, BlockBase;
      // in range a block can always be had, so the failure branch of the loop is never taken
      var i := GetCacheBlock(from);
      cacheIndex := i;
      cacheOffset := from - blocks[i].base;
      ReadingShown(file, cacheSize, from, remain);
      reading := Min(remain, |blocks[i].data| - cacheOffset);
      CopyIn(dst, at, blocks[i].data, cacheOffset, reading);
      cacheOffset := cacheOffset + reading;
    }

    /**
     Copies `size` bytes from `pos` into the front of `dst`, block by block.  The cached loop only
     ends inside the file (see ReadingProgress), so that is what a cached caller has to keep to.
     */
    method ReadBytes(dst: array<Byte>, size: nat, pos: nat) returns (ok: bool)
      requires Valid() && size <= dst.Length
      requires useCache ==> pos + size <= |file|
      modifies this`cacheIndex, this`cacheOffset, this`filePos, blocks, dst
      ensures Valid()
      ensures ok <==> pos + size <= |file|
      ensures ok ==> Attached() && Cursor() == pos + size && dst[..size] == file[pos..pos + size]
      ensures dst[size..] == old(dst[size..])
    {
      hide Chunk, Reading, BlockBase;
      if useCache {
        var remain, at := size, 0;
        while true
          invariant Valid() && at + remain == size && (at == 0 || remain > 0)
          invariant dst[..at] == file[pos..pos + at] && dst[size..] == old(dst[size..])
          decreases remain, at == 0
        {
          var reading := ReadBlock(dst, at, pos + at, remain);
          ReadingProgress(file, cacheSize, pos + at, remain);
          Extended(dst, at, reading, pos);
          at, remain := at + reading, remain - reading;
          if remain == 0 { break; }
        }
        return true;
      }
      filePos := pos;
      if pos + size > |file| { return false; }
      CopyIn(dst, 0, file, pos, size);
      filePos := pos + size;
      return true;
    }

    lemma Extended(dst: array<Byte>, at: nat, n: nat, pos: nat)
      requires at + n <= dst.Length && pos + at + n <= |file|
      requires dst[..at] == file[pos..pos + at] && dst[at..at + n] == file[pos + at..pos + at + n]
      ensures dst[..at + n] == file[pos..pos + at + n]
    {
      assert dst[..at + n] == dst[..at] + dst[at..at + n];
      assert file[pos..pos + at + n] == file[pos..pos + at] + file[pos + at..pos + at + n];
    }

    /** memcpy of `n` bytes of `src` at `from` into `dst` at `at`. */
    static method CopyIn(dst: array<Byte>, at: nat, src: seq<Byte>, from: nat, n: nat)
      requires at + n <= dst.Length && from + n <= |src|
      modifies dst
      ensures dst[at..at + n] == src[from..from + n]
      ensures dst[..at] == old(dst[..at]) && dst[at + n..] == old(dst[at + n..])
    {
      forall k | 0 <= k < n {
        dst[at + k] := src[from + k];
      }
    }

    // -------------------------------------------------------------- refinement of a plain cursor

    method Do(op: Op) returns (reply: Reply)
      requires Valid() && Attached() && Cursor() <= |file| && InRange(file, op)
      modifies this`cacheIndex, this`cacheOffset, this`filePos, blocks
      ensures Valid() && Attached()
      ensures (Cursor(), reply) == PlainStep(file, old(Cursor()), op)
    {
      match op
      case Seek(pos) =>
        var ok := SafeSeek(pos);
        reply := Reply(ok, [], 0);
      case Tell =>
        var ok, pos := SafeTell();
        reply := Reply(ok, [], pos);
      case GetByte =>
        var ok, value := ReadByte();
        reply := Reply(ok, if ok then [value] else [], 0);
      case GetBytes(pos, size) =>
        var dst := new Byte[size](_ => 0);
        var ok := ReadBytes(dst, size, pos);
        assert dst[..size] == dst[..];
        reply := Reply(ok, dst[..], 0);
    }

    /**
     Any run of in-range operations, with blocks loaded and evicted on the way, answers exactly as
     a plain cursor does, whether or not the cache is in use.
     */
    method Run(ops: seq<Op>) returns (replies: seq<Reply>)
      requires Valid() && Attached() && Cursor() <= |file|
      requires forall op | op in ops :: InRange(file, op)
      modifies this`cacheIndex, this`cacheOffset, this`filePos, blocks
      ensures Valid() && Attached()
      ensures (Cursor(), replies) == PlainRun(file, old(Cursor()), ops)
    {
      replies := [];
      for i := 0 to |ops|
        invariant Valid() && Attached()
        invariant (Cursor(), replies) == PlainRun(file, old(Cursor()), ops[..i])
      {
        assert ops[..i + 1][..i] == ops[..i] && ops[i] in ops;
        var reply := Do(ops[i]);
        replies := replies + [reply];
      }
      assert ops[..|ops|] == ops;
    }

    // -------------------------------------------------------------- parser

    /** A START byte among the properties: they end there, and the children begin. */
    method ParseChild(node: NodeStruct, ghost d: nat) returns (ok: bool, ghost fp: set<NodeStruct>)
      requires Valid() && Attached() && Cursor() == d + 1 <= |file| && file[d] == NODE_START
      requires node.start + 2 <= d
      modifies this`cacheIndex, this`cacheOffset, this`filePos, blocks, node`propsSize, node`child
      ensures Valid() && fresh(fp)
      ensures ok <==> ParseKids(file, d).Ok?
      ensures ok ==> Attached() && Cursor() == ParseKids(file, d).pos && node.propsSize == d - node.start - 2
      ensures ok ==> Rep(node.child, ParseKids(file, d).index, fp)
      decreases |file| - Cursor(), 4
    {
      hide Parse, Rep, Valid, Cursor;
      var told, pos := SafeTell();
      var child := new NodeStruct(pos);
      node.propsSize := pos - node.start - 2;
      node.child := child;
      ok, fp := ParseNode(child);
    }

    /**
     The inner loop of parseNode: from behind the type byte of `node` up to and including its END
     byte, with the children on the way.
     */
    method ParseBody(node: NodeStruct) returns (ok: bool, ghost fp: set<NodeStruct>)
      requires Valid() && Attached() && Cursor() == node.start + 2 <= |file| && node.child == null
      modifies this`cacheIndex, this`cacheOffset, this`filePos, blocks, node`propsSize, node`child
      ensures Valid() && fresh(fp)
      ensures ok <==> Scan(file, node.start + 2).Some? && Closed(ParseKids(file, Scan(file, node.start + 2).value))
      ensures ok ==> var d := Scan(file, node.start + 2).value; var kids := ParseKids(file, d);
        && Attached() && Cursor() == kids.pos + 1
        && node.propsSize == d - node.start - 2 && Rep(node.child, kids.index, fp)
      decreases |file| - Cursor(), 0
    {
      hide Parse, InFile, Scan, Chunk, BlockBase;
      var setPropsSize := false;
      fp := {};
      ghost var from := node.start + 2;
      ghost var d: nat := 0;
      while true
        invariant Valid() && Attached() && from <= Cursor() <= |file| && fresh(fp)
        invariant !setPropsSize ==> Scan(file, from) == Scan(file, Cursor()) && node.child == null
        invariant setPropsSize ==> Scan(file, from) == Some(d) && file[d] == NODE_START && Cursor() > from
        invariant setPropsSize ==> ParseKids(file, d).Ok? && ParseKids(file, d).pos == Cursor()
        invariant setPropsSize ==> node.propsSize == d - from && Rep(node.child, ParseKids(file, d).index, fp)
        decreases |file| - Cursor()
      {
        ghost var at := Cursor();
        ScanOne(file, at);
        var got, byte := ReadByte();
        if !got { return false, fp; }
        if byte == NODE_START {
          d := at;
          got, fp := ParseChild(node, at);
          if !got { return false, fp; }
          setPropsSize := true;
        } else if byte == NODE_END {
          if !setPropsSize {
            var told, pos := SafeTell();
            node.propsSize := pos - node.start - 2;
          }
          return true, fp;
        } else if byte == ESCAPE_CHAR {
          got, byte := ReadByte();
          if !got { return false, fp; }
        }
      }
    }

    /** Whether a parse stopped at an END byte, so that the enclosing node can be closed. */
    predicate Closed(r: ParseResult)
    {
      r.Ok? && r.pos < |file|
    }

    /** The index entry of a node whose body has been read. */
    function Entry(start: nat): Index
      requires start + 1 < |file| && Scan(file, start + 2).Some?
      requires ParseKids(file, Scan(file, start + 2).value).Ok?
    {
      var d := Scan(file, start + 2).value;
      Node(start, d - start - 2, file[start + 1], ParseKids(file, d).index, NoNode)
    }

    /** The type byte and the body of `node`: everything of it but its `next` link. */
    method ParseOne(node: NodeStruct) returns (ok: bool, ghost fp: set<NodeStruct>)
      requires Valid() && Attached() && Cursor() == node.start + 1 <= |file|
      requires node.child == null && node.next == null
      modifies this`cacheIndex, this`cacheOffset, this`filePos, blocks, node`typ, node`propsSize, node`child
      ensures Valid() && fresh(fp)
      ensures ok <==> node.start + 1 < |file| && Scan(file, node.start + 2).Some?
                      && Closed(ParseKids(file, Scan(file, node.start + 2).value))
      ensures ok ==> var kids := ParseKids(file, Scan(file, node.start + 2).value);
        && Attached() && node.start + 2 < Cursor() == kids.pos + 1 && HasBody(node, Entry(node.start), fp)
      decreases |file| - Cursor(), 1
    {
      hide Parse, ParseKids, Scan;
      fp := {};
      var got, byte := ReadByte();
      if !got { return false, fp; }
      node.typ := byte;
      ok, fp := ParseBody(node);
    }

    /**
     What stands behind the END byte of a node: a sibling at `pos`, the END of the parent (stepped
     back over) or the end of the file, or something that is not a node at all.
     */
    method ParseEnd() returns (ok: bool, more: bool, pos: nat)
      requires Valid() && Attached() && 0 < Cursor() <= |file|
      modifies this`cacheIndex, this`cacheOffset, this`filePos, blocks
      ensures Valid()
      ensures more <==> old(Cursor()) < |file| && file[old(Cursor())] == NODE_START
      ensures more ==> ok && Attached() && pos == old(Cursor()) && Cursor() == pos + 1
      ensures ok && !more <==> EndsAt(file, old(Cursor()))
      ensures ok && !more ==> Attached() && Cursor() == old(Cursor())
    {
      pos := 0;
      var got, byte := ReadByte();
      if !got { return true, false, pos; }
      if byte == NODE_START {
        var told, at := SafeTell();
        return true, true, at;
      }
      if byte == NODE_END {
        var told, at := SafeTell();
        ok := SafeSeek(at);
        return ok, false, pos;
      }
      return false, false, pos;
    }

    /** The siblings before `current` are done and linked to it; the rest of the parse starts at `current`. */
    ghost predicate Underway(node: NodeStruct, trail: seq<NodeStruct>, shape: seq<Index>,
                             current: NodeStruct, fp: set<NodeStruct>)
      requires node.start < |file|
      reads node`start, current, fp
    {
      && Linked(trail, shape, current, fp)
      && current !in fp && current.child == null && current.next == null
      && (if trail == [] then current == node else trail[0] == node)
      && (forall z | z in shape :: z.Node?)
      && current.start < |file|
      && Parse(file, node.start) == Prepend(shape, Parse(file, current.start))
    }

    /** One turn of the outer loop of parseNode: a whole node, and a fresh one if a sibling follows. */
    method ParseSibling(node: NodeStruct, current: NodeStruct, ghost trail: seq<NodeStruct>, ghost shape: seq<Index>,
                        ghost fp: set<NodeStruct>)
      returns (ok: bool, next: NodeStruct?, ghost x: Index, ghost all: set<NodeStruct>)
      requires Valid() && Attached() && Cursor() == current.start + 1 <= |file| && node.start < |file|
      requires Underway(node, trail, shape, current, fp)
      modifies this`cacheIndex, this`cacheOffset, this`filePos, blocks, current
      ensures Valid() && current.start == old(current.start) && fresh(all - fp - {current})
      ensures next == null ==> (ok <==> Parse(file, node.start).Ok?)
      ensures next == null && ok ==> Attached() && Cursor() == Parse(file, node.start).pos
      ensures next == null && ok ==> Rep(node, Parse(file, node.start).index, all)
      ensures next != null ==> fresh(next) && Attached() && Cursor() == next.start + 1 <= |file|
      ensures next != null ==> next.start > current.start && Underway(node, trail + [current], shape + [x], next, all)
      decreases |file| - Cursor(), 2
    {
      hide Parse, ParseKids, ParseRest, Scan, Chain, Linked, HasBody, Rep, Valid, Cursor, InFile, Accepted;
      next, x, all := null, NoNode, {};
      ghost var start := current.start;
      ghost var more;
      ok, more := ParseOne(current);
      if !ok {
        if Parse(file, start).Ok? {
          ParseNeedsBody(file, start);
        }
        return;
      }
      x := Entry(start);
      ParseByBody(file, start, Scan(file, start + 2).value, x, shape);
      RestCases(file, Cursor() - 1, shape + [x]);
      var goOn, pos;
      ok, goOn, pos := ParseEnd();
      all := fp + more + {current};
      if goOn {
        next := new NodeStruct(pos);
        current.next := next;
        LinkedSnoc(trail, shape, current, x, next, fp, more, all);
      } else {
        LinkedSnoc(trail, shape, current, x, null, fp, more, all);
        RepChain(trail + [current], shape + [x], null, NoNode, all);
      }
    }

    /**
     parseNode: reads the type of `node`, its body, and whatever siblings follow; the nodes it
     links together are exactly what the file says from the START byte of `node` on.
     */
    method ParseNode(node: NodeStruct) returns (ok: bool, ghost fp: set<NodeStruct>)
      requires Valid() && Attached() && Cursor() == node.start + 1 <= |file|
      requires node.child == null && node.next == null
      modifies this`cacheIndex, this`cacheOffset, this`filePos, blocks, node
      ensures node.start == old(node.start)
      ensures Valid() && fresh(fp - {node})
      ensures ok <==> Parse(file, node.start).Ok?
      ensures ok ==> Attached() && Cursor() == Parse(file, node.start).pos
      ensures ok ==> Rep(node, Parse(file, node.start).index, fp)
      decreases |file| - Cursor(), 3
    {
      hide Parse, Prepend, Linked, Rep, Valid, Cursor;
      var current: NodeStruct := node;
      ghost var trail: seq<NodeStruct> := [];
      ghost var shape: seq<Index> := [];
      fp := {};
      PrependNone(Parse(file, node.start));
      NothingLinked(node);
      while true
        invariant Valid() && Attached() && Cursor() == current.start + 1 <= |file|
        invariant fresh(fp - {node}) && (current == node || fresh(current))
        invariant node.start == old(node.start) <= current.start && Underway(node, trail, shape, current, fp)
        decreases |file| - current.start
      {
        var next;
        ghost var x, all;
        ok, next, x, all := ParseSibling(node, current, trail, shape, fp);
        trail, shape, fp := trail + [current], shape + [x], all;
        if next == null { return; }
        current := next;
      }
    }

    /** Decides on the cache; the blocks start empty and no position is known. */
    method SetUpCache(caching: bool)
      requires Valid() && !useCache
      modifies this`useCache, this`cacheSize, this`cacheIndex, this`cacheOffset, blocks
      ensures Valid()
    {
      if caching {
        useCache := true;
        cacheSize := CacheSizeFor(|file|);
        cacheIndex, cacheOffset := NO_VALID_CACHE, NO_VALID_CACHE;
        forall k | 0 <= k < CACHE_BLOCKS { blocks[k] := Block(false, 0, []); }
      }
    }

    /**
     Opens the file: the first four bytes must be the identifier or zero, and the root node starts
     right behind them.
     */
    method OpenFile(identifier: seq<Byte>, caching: bool) returns (ok: bool, ghost fp: set<NodeStruct>)
      requires |identifier| == 4 && Valid() && !useCache
      modifies this`useCache, this`cacheSize, this`cacheIndex, this`cacheOffset, this`filePos, this`root, blocks
      ensures Valid() && fresh(fp)
      ensures ok <==> |file| > 4 && (file[..4] == identifier || file[..4] == HEADER)
                      && file[4] == NODE_START && Parse(file, 4).Ok?
      ensures ok ==> Rep(root, Parse(file, 4).index, fp)
    {
      hide Parse, Rep, Valid, Cursor;
      fp := {};
      if |file| < 4 { return false, fp; }
      if file[..4] != identifier && file[..4] != HEADER { return false, fp; }
      SetUpCache(caching);
      ok := SafeSeek(4);
      var node := new NodeStruct(4);
      root := node;
      ok := SafeSeek(4);
      var byte;
      ok, byte := ReadByte();
      if !ok || byte != NODE_START { return false, fp; }
      ok, fp := ParseNode(node);
    }

    // -------------------------------------------------------------- properties

    /**
     The in-place unescape loop: the first `size` bytes of the buffer are replaced by what they
     stand for, which takes the first `j` bytes.
     */
    method UnescapeBuffer(size: nat) returns (j: nat)
      requires size <= buffer.Length && Clean(buffer[..size])
      modifies buffer
      ensures j <= size && buffer[..j] == Unescape(old(buffer[..size]))
    {
      hide Unescape, Clean;
      ghost var raw := buffer[..size];
      j := 0;
      var escaped, i := false, 0;
      assert raw[0..] == raw;
      while i < size
        invariant 0 <= j <= i <= size && Clean(raw[i..])
        invariant Unescape(raw) == buffer[..j] + Unescape(raw[i..])
        invariant forall k :: i <= k < size ==> buffer[k] == raw[k]
        invariant escaped || j == i
      {
        ghost var done := buffer[..j];
        UnescapeStep(raw, i, done);
        if buffer[i] == ESCAPE_CHAR {
          i := i + 1;
          buffer[j] := buffer[i];
          escaped := true;
        } else if escaped {
          buffer[j] := buffer[i];
        }
        assert buffer[..j + 1] == done + [raw[i]];
        i, j := i + 1, j + 1;
      }
      UnescapeEnd(raw);
    }

    /** The front of clean bytes: an escaped byte, or one that stands for itself. */
    lemma UnescapeFront(r: seq<Byte>)
      requires r != [] && Clean(r)
      ensures var n := if r[0] == ESCAPE_CHAR then 2 else 1;
        n <= |r| && Clean(r[n..]) && Unescape(r) == [r[n - 1]] + Unescape(r[n..])
    {
    }

    /** What getProps does next at `i`, with `pre` already in place. */
    lemma UnescapeStep(raw: seq<Byte>, i: nat, pre: seq<Byte>)
      requires i < |raw| && Clean(raw[i..]) && Unescape(raw) == pre + Unescape(raw[i..])
      ensures var k := if raw[i] == ESCAPE_CHAR then i + 1 else i;
        k < |raw| && Clean(raw[k + 1..]) && Unescape(raw) == pre + [raw[k]] + Unescape(raw[k + 1..])
    {
      hide Unescape, Clean;
      var r, n := raw[i..], if raw[i] == ESCAPE_CHAR then 2 else 1;
      UnescapeFront(r);
      assert r[n - 1] == raw[i + n - 1] && r[n..] == raw[i + n..];
    }

    lemma UnescapeEnd(raw: seq<Byte>)
      ensures Unescape(raw[|raw|..]) == []
    {}

    /**
     The properties of a node, unescaped at the front of the buffer.  The buffer grows by 1024 bytes
     at most once per call, so a stretch that needs more than that would not fit.
     */
    method GetProps(node: NodeStruct) returns (size: nat)
      requires Valid() && node.start + 2 + node.propsSize <= |file|
      requires Clean(file[node.start + 2..node.start + 2 + node.propsSize])
      requires node.propsSize <= Grown(node.propsSize, buffer.Length)
      modifies this`cacheIndex, this`cacheOffset, this`filePos, this`buffer, blocks, buffer
      ensures Valid() && (buffer == old(buffer) || fresh(buffer))
      ensures buffer.Length == Grown(node.propsSize, old(buffer.Length))
      ensures size <= node.propsSize
      ensures buffer[..size] == Unescape(file[node.start + 2..node.start + 2 + node.propsSize])
    {
      hide Unescape, Clean, Valid, Cursor;
      if node.propsSize >= buffer.Length {
        buffer := new Byte[buffer.Length + 1024](_ => 0);
      }
      var ok := ReadBytes(buffer, node.propsSize, node.start + 2);
      size := UnescapeBuffer(node.propsSize);
    }

    /** Walks the nodes as the users of the loader do: type and properties, children, siblings. */
    method ReadNodes(node: NodeStruct?, ghost x: Index, ghost fp: set<NodeStruct>) returns (f: Forest)
      requires Valid() && Rep(node, x, fp) && InFile(file, x) && AllClean(file, x)
      requires Room(x, buffer.Length).Some?
      modifies this`cacheIndex, this`cacheOffset, this`filePos, this`buffer, blocks, buffer
      ensures Valid() && (buffer == old(buffer) || fresh(buffer))
      ensures f == Decode(file, x) && Some(buffer.Length) == Room(x, old(buffer.Length))
      decreases x
    {
      hide Unescape, Clean, Valid, Cursor;
      if node == null { return Nil; }
      var typ := node.typ;
      var size := GetProps(node);
      var props := buffer[..size];
      var child := ReadNodes(node.child, x.child, fp);
      var next := ReadNodes(node.next, x.next, fp);
      f := Cons(typ, props, child, next);
    }
  }

  /** Buffer size after the properties of one node have been asked for. */
  function Grown(size: nat, capacity: nat): nat
  {
    if size >= capacity then capacity + 1024 else capacity
  }

  /** Buffer size after a walk over the nodes of `x`; None if some property stretch would not fit. */
  function Room(x: Index, capacity: nat): Option<nat>
  {
    match x
    case NoNode => Some(capacity)
    case Node(_, size, _, child, next) =>
      if size > Grown(size, capacity) then None
      else
        var afterKids := Room(child, Grown(size, capacity));
        if afterKids.None? then None else Room(next, afterKids.value)
  }

  /** No property stretch is longer than the limit. */
  predicate AllWithin(x: Index, limit: nat)
  {
    x.Node? ==> x.size <= limit && AllWithin(x.child, limit) && AllWithin(x.next, limit)
  }

  /** There is room in every file whose property stretches are no longer than the first buffer grown once. */
  lemma {:induction false} RoomForShort(x: Index, capacity: nat, limit: nat)
    requires AllWithin(x, limit) && limit <= capacity + 1024
    ensures Room(x, capacity).Some? && Room(x, capacity).value >= capacity
  {
    if x.Node? {
      var grown := Grown(x.size, capacity);
      RoomForShort(x.child, grown, limit);
      RoomForShort(x.next, Room(x.child, grown).value, limit);
    }
  }

  /** The sizes of the property stretches, in the order in which they are read. */
  function Stretches(x: Index): seq<nat>
  {
    if x.NoNode? then [] else [x.size] + Stretches(x.child) + Stretches(x.next)
  }

  /** The size of the buffer once these stretches have been read. */
  function CapacityAfter(sizes: seq<nat>, capacity: nat): nat
  {
    if sizes == [] then capacity else CapacityAfter(sizes[1..], Grown(sizes[0], capacity))
  }

  /** Every stretch is at most 1024 bytes longer than the buffer is when it is read. */
  predicate AllFit(sizes: seq<nat>, capacity: nat)
  {
    forall k :: 0 <= k < |sizes| ==> sizes[k] <= CapacityAfter(sizes[..k], capacity) + 1024
  }

  lemma {:induction false} CapacityConcat(a: seq<nat>, b: seq<nat>, capacity: nat)
    ensures CapacityAfter(a + b, capacity) == CapacityAfter(b, CapacityAfter(a, capacity))
    decreases |a|
  {
    if a == [] {
      assert a + b == b;
    } else {
      assert (a + b)[1..] == a[1..] + b;
      CapacityConcat(a[1..], b, Grown(a[0], capacity));
    }
  }

  lemma AllFitConcat(a: seq<nat>, b: seq<nat>, capacity: nat)
    ensures AllFit(a + b, capacity) <==> AllFit(a, capacity) && AllFit(b, CapacityAfter(a, capacity))
  {
    hide CapacityAfter;
    forall k | 0 <= k < |a| ensures (a + b)[..k] == a[..k] && (a + b)[k] == a[k] {
    }
    forall k | 0 <= k < |b|
      ensures CapacityAfter((a + b)[..|a| + k], capacity) == CapacityAfter(b[..k], CapacityAfter(a, capacity))
    {
      assert (a + b)[..|a| + k] == a + b[..k];
      CapacityConcat(a, b[..k], capacity);
    }
    assert forall k :: 0 <= k < |b| ==> (a + b)[|a| + k] == b[k];
    if AllFit(a + b, capacity) {
      forall k | 0 <= k < |b| ensures b[k] <= CapacityAfter(b[..k], CapacityAfter(a, capacity)) + 1024 {
        assert (a + b)[|a| + k] <= CapacityAfter((a + b)[..|a| + k], capacity) + 1024;
      }
      forall k | 0 <= k < |a| ensures a[k] <= CapacityAfter(a[..k], capacity) + 1024 {
        assert (a + b)[k] <= CapacityAfter((a + b)[..k], capacity) + 1024;
      }
    }
    if AllFit(a, capacity) && AllFit(b, CapacityAfter(a, capacity)) {
      forall k | 0 <= k < |a + b| ensures (a + b)[k] <= CapacityAfter((a + b)[..k], capacity) + 1024 {
        if k >= |a| {
          assert (a + b)[|a| + (k - |a|)] == b[k - |a|];
        }
      }
    }
  }

  /** One stretch. */
  lemma FitsOnce(size: nat, capacity: nat)
    ensures AllFit([size], capacity) <==> size <= Grown(size, capacity)
    ensures CapacityAfter([size], capacity) == Grown(size, capacity)
  {
    assert [size][..0] == [] && [size][1..] == [];
    assert CapacityAfter([], capacity) == capacity;
  }

  /**
   A walk over a file stays inside the buffer exactly when every stretch is at most 1024 bytes longer than the
   buffer is by then; getProps writes past the buffer at the first one that is not.
   */
  lemma {:induction false} RoomExactly(x: Index, capacity: nat)
    ensures Room(x, capacity) ==
            if AllFit(Stretches(x), capacity) then Some(CapacityAfter(Stretches(x), capacity)) else None
  {
    if x.Node? {
      hide AllFit, CapacityAfter;
      var one, kids, rest := [x.size], Stretches(x.child), Stretches(x.next);
      var grown := Grown(x.size, capacity);
      FitsOnce(x.size, capacity);
      RoomExactly(x.child, grown);
      RoomExactly(x.next, CapacityAfter(kids, grown));
      AllFitConcat(one, kids, capacity);
      AllFitConcat(one + kids, rest, capacity);
      CapacityConcat(one, kids, capacity);
      CapacityConcat(one + kids, rest, capacity);
    } else {
      assert CapacityAfter([], capacity) == capacity;
    }
  }

  predicate AllClean(s: seq<Byte>, x: Index)
    requires InFile(s, x)
  {
    x.NoNode? || (Clean(Region(s, x)) && AllClean(s, x.child) && AllClean(s, x.next))
  }

  lemma {:induction false} PlacedIsClean(s: seq<Byte>, x: Index, lo: nat, hi: nat)
    requires InFile(s, x) && Placed(s, x, lo, hi)
    ensures AllClean(s, x)
    decreases x
  {
    if x.Node? {
      var e: nat :| ClosedAt(s, x, e, hi);
      PlacedIsClean(s, x.child, x.start + 2 + x.size, e);
      PlacedIsClean(s, x.next, e + 1, hi);
    }
  }

  // ---------------------------------------------------------------- writer

  lemma {:induction false} EscapeConcat(a: seq<Byte>, b: seq<Byte>)
    ensures Escape(a + b) == Escape(a) + Escape(b)
  {
    if a == [] {
      assert a + b == b;
    } else {
      assert (a + b)[1..] == a[1..] + b;
      EscapeConcat(a[1..], b);
    }
  }

  lemma EscapeNone(data: seq<Byte>)
    ensures Escape(data[..0]) == []
  {}

  lemma EscapeSnoc(data: seq<Byte>, i: nat)
    requires i < |data|
    ensures Escape(data[..i + 1])
         == Escape(data[..i]) + (if IsSpecial(data[i]) then [ESCAPE_CHAR] else []) + [data[i]]
    ensures data[..i + 1] == data[..i] + [data[i]]
  {
    var c := data[i];
    assert data[..i + 1] == data[..i] + [c];
    EscapeConcat(data[..i], [c]);
    assert [c][1..] == [] && Escape([]) == [];
    assert Escape([c]) == (if IsSpecial(c) then [ESCAPE_CHAR] else []) + [c];
  }

  /** The loader opened for writing. */
  class NodeWriter {
    var out: seq<Byte>

    constructor ()
      ensures out == HEADER
    {
      out := [];
      new;
      WriteData([0, 0, 0, 0], false);
    }

    /** Byte by byte to the file, with an escape in front of every special byte if asked for. */
    method WriteData(data: seq<Byte>, unescape: bool)
      modifies this
      ensures out == old(out) + (if unescape then Escape(data) else data)
    {
      hide Escape;
      var i := 0;
      EscapeNone(data);
      while i < |data|
        invariant 0 <= i <= |data|
        invariant out == old(out) + (if unescape then Escape(data[..i]) else data[..i])
      {
        var c := data[i];
        EscapeSnoc(data, i);
        if unescape && (c == NODE_START || c == NODE_END || c == ESCAPE_CHAR) {
          out := out + [ESCAPE_CHAR];
        }
        out := out + [c];
        i := i + 1;
      }
      assert data[..i] == data;
    }

    method StartNode(typ: Byte)
      modifies this
      ensures out == old(out) + ([NODE_START] + Escape([typ]))
    {
      WriteData([NODE_START], false);
      WriteData([typ], true);
    }

    /** The length of one call is a 16-bit number. */
    method SetProps(data: seq<Byte>)
      requires |data| < 0x1_0000
      modifies this
      ensures out == old(out) + Escape(data)
    {
      WriteData(data, true);
    }

    method EndNode()
      modifies this
      ensures out == old(out) + [NODE_END]
    {
      WriteData([NODE_END], false);
    }

    /** The properties of one node, in as many setProps calls as their length asks for. */
    method WriteProps(data: seq<Byte>)
      modifies this
      ensures out == old(out) + Escape(data)
      decreases |data|
    {
      if |data| < 0x1_0000 {
        SetProps(data);
      } else {
        SetProps(data[..0xFFFF]);
        WriteProps(data[0xFFFF..]);
        assert data == data[..0xFFFF] + data[0xFFFF..];
        EscapeConcat(data[..0xFFFF], data[0xFFFF..]);
      }
    }

    /** A whole forest of nodes. */
    method WriteNodes(f: Forest)
      modifies this
      ensures out == old(out) + Write(f)
    {
      hide Escape;
      if f.Cons? {
        StartNode(f.typ);
        WriteProps(f.props);
        WriteNodes(f.child);
        EndNode();
        WriteNodes(f.next);
      }
    }
  }

  /**
   Writing a forest of nodes and loading the file again, with the cache on or off, gives the forest
   back exactly when every node survives; otherwise something else, or nothing, is read.
   */
  method SaveAndLoad(f: Forest, identifier: seq<Byte>, caching: bool) returns (g: Option<Forest>)
    requires f.Cons? && |identifier| == 4
    requires Parse(FileOf(f), 4).Ok? ==> Room(Parse(FileOf(f), 4).index, 1024).Some?
    ensures g == ReadFile(FileOf(f))
    ensures g == Some(f) <==> Survives(f)
  {
    hide Parse, Write, Placed, Rep, Decode, Survives;
    var writer := new NodeWriter();
    writer.WriteNodes(f);
    var loader := new FileLoader(writer.out);
    var ok, fp := loader.OpenFile(identifier, caching);
    RoundTripExactly(f);
    if !ok { return None; }
    ParseSound(loader.file, 4);
    PlacedIsClean(loader.file, Parse(loader.file, 4).index, 4, Parse(loader.file, 4).pos);
    var forest := loader.ReadNodes(loader.root, Parse(loader.file, 4).index, fp);
    g := Some(forest);
  }
}
