/**
 ByteArray: a growing buffer kept in a singly linked list of equally large
 nodes, with a cursor (`cur`, `position`).  Every operation is proved against
 the flat buffer of module FlatBuffer.
 */
module ByteArrays {
  import opened Wrappers
  import opened Bytes
  import opened FlatBuffer
  import opened ByteCodec
  import opened BytePrograms

  /** One piece of a node's memory, as handed out for scatter/gather I/O. */
  datatype Slice = Slice(mem: array<Byte>, from: nat, len: nat)

  /** The slices that cover `len` bytes from byte `at` of memory `k` on. */
  ghost function Pieces(mems: seq<array<Byte>>, base: nat, k: nat, at: nat, len: nat): seq<Slice>
    requires k < |mems| && at < base && Start(base, k) + at + len <= Start(base, |mems|)
    decreases len
  {
    if len == 0 then []
    else if base - at >= len then [Slice(mems[k], at, len)]
    else
      assert Start(base, k + 1) == Start(base, k) + base;
      [Slice(mems[k], at, base - at)] + Pieces(mems, base, k + 1, 0, len - (base - at))
  }

  /** The first slice, and those of the nodes behind. */
  lemma FirstPiece(mems: seq<array<Byte>>, base: nat, k: nat, at: nat, len: nat)
    requires k < |mems| && at < base && 0 < len && Start(base, k) + at + len <= Start(base, |mems|)
    ensures var n := if base - at >= len then len else base - at;
            var p := Pieces(mems, base, k, at, len);
            && p != [] && p[0] == Slice(mems[k], at, n) && p == [p[0]] + p[1..]
            && (n == len ==> p[1..] == [])
            && (n < len ==> k + 1 < |mems| && Start(base, k + 1) == Start(base, k) + base
                            && p[1..] == Pieces(mems, base, k + 1, 0, len - n))
  {
    if base - at < len {
      assert Start(base, k + 1) == Start(base, k) + base;
    }
  }

  ghost function Total(slices: seq<Slice>): nat {
    if slices == [] then 0 else slices[0].len + Total(slices[1..])
  }

  /** The slices sum to `len`, and each is in another memory, so they do not overlap. */
  lemma {:induction false} PiecesDisjoint(mems: seq<array<Byte>>, base: nat, k: nat, at: nat, len: nat)
    requires k < |mems| && at < base && Start(base, k) + at + len <= Start(base, |mems|)
    ensures var p := Pieces(mems, base, k, at, len);
            && Total(p) == len
            && k + |p| <= |mems|
            && forall i :: 0 <= i < |p| ==> p[i].mem == mems[k + i] && p[i].len > 0
    decreases len
  {
    if base - at < len {
      assert Start(base, k + 1) == Start(base, k) + base;
      PiecesDisjoint(mems, base, k + 1, 0, len - (base - at));
      var p, rest := Pieces(mems, base, k, at, len), Pieces(mems, base, k + 1, 0, len - (base - at));
      assert p[1..] == rest;
      assert forall i :: 0 < i < |p| ==> p[i] == rest[i - 1];
    }
  }

  ghost predicate Fit(slices: seq<Slice>) {
    slices != [] ==> slices[0].from + slices[0].len <= slices[0].mem.Length && Fit(slices[1..])
  }

  /** What the slices hold, in order. */
  ghost function Gathered(slices: seq<Slice>): seq<Byte>
    requires Fit(slices)
    reads set s | s in slices :: s.mem
  {
    if slices == [] then []
    else slices[0].mem[slices[0].from..slices[0].from + slices[0].len] + Gathered(slices[1..])
  }

  lemma GatheredCons(s: Slice, rest: seq<Slice>)
    requires Fit(rest) && s.from + s.len <= s.mem.Length
    ensures Fit([s] + rest)
    ensures Gathered([s] + rest) == s.mem[s.from..s.from + s.len] + Gathered(rest)
  {
    assert ([s] + rest)[1..] == rest;
  }

  class Node {
    const ptr: array<Byte>
    const size: nat
    var next: Node?
    ghost const id: nat   // how many nodes precede this one

    constructor (s: nat, ghost id: nat)
      ensures size == s == ptr.Length && this.id == id && next == null && fresh(ptr)
    {
      this.id := id;
      ptr := new Byte[s];
      size := s;
      next := null;
    }
  }

  /** memcpy. */
  method CopyInto(dst: array<Byte>, at: nat, src: seq<Byte>)
    requires at + |src| <= dst.Length
    modifies dst
    ensures dst[..] == Splice(old(dst[..]), at, src)
  {
    var i := 0;
    while i < |src|
      invariant 0 <= i <= |src|
      invariant dst[..] == Splice(old(dst[..]), at, src[..i])
    {
      dst[at + i] := src[i];
      i := i + 1;
    }
    assert src[..i] == src;
  }

  class ByteArray {
    const baseSize: nat
    const hostLittle: bool   // the byte order of the machine
    const room: nat          // the length of its longest string
    var position: nat
    var capacity: nat
    var size: nat
    var littleEndian: bool
    var root: Node
    var cur: Node?
    ghost var nodes: seq<Node>         // the nodes from `root` on
    ghost var mems: seq<array<Byte>>   // their memories
    ghost var blocks: seq<seq<Byte>>   // what the memories hold
    ghost var index: nat               // where `cur` is among the nodes; |nodes| when it is null

    /** The list: `nodes` from `root` to the null link, each with `baseSize` bytes. */
    ghost predicate Chain()
      reads `nodes, `mems, `root, `capacity, nodes
    {
      && baseSize > 0
      && |nodes| == |mems| > 0
      && nodes[0] == root
      && (forall i :: 0 <= i < |nodes| ==> nodes[i].id == i && nodes[i].size == baseSize && nodes[i].ptr == mems[i])
      && (forall i {:trigger nodes[i].next} :: 0 <= i < |nodes| ==> nodes[i].next == NodeAt(i + 1))
      && capacity == Start(baseSize, |nodes|)
    }

    /** The memories: no two are the same, and `blocks` is what they hold. */
    ghost predicate Holding()
      reads `mems, `blocks, mems
    {
      && |blocks| == |mems|
      && (forall i :: 0 <= i < |mems| ==> mems[i].Length == baseSize && mems[i][..] == blocks[i])
      && (forall i, j :: 0 <= i < j < |mems| ==> mems[i] != mems[j])
    }

    ghost predicate Linked()
      reads `nodes, `mems, `root, `capacity, `blocks, nodes, mems
    {
      Chain() && Holding()
    }

    ghost function NodeAt(k: nat): Node?
      reads `nodes
    {
      if k < |nodes| then nodes[k] else null
    }

    /** Nodes were only added at the end, with fresh memory. */
    twostate predicate NodesAdded()
      reads `nodes, `mems
    {
      && old(nodes) <= nodes && old(mems) <= mems
      && (forall i :: |old(nodes)| <= i < |nodes| ==> fresh(nodes[i]))
      && (forall i :: |old(mems)| <= i < |mems| ==> fresh(mems[i]))
    }

    /** ... and what the nodes held before is still there. */
    twostate predicate Extended()
      reads `nodes, `mems, `blocks
    {
      NodesAdded() && old(blocks) <= blocks
    }

    /** `cur` is the node that `position` falls into. */
    ghost predicate AtCursor()
      reads `nodes, `cur, `index, `position
    {
      && index <= |nodes|
      && cur == NodeAt(index)
      && Start(baseSize, index) <= position < Start(baseSize, index) + baseSize
    }

    ghost predicate Valid()
      reads this, nodes, mems
    {
      Linked() && AtCursor() && position <= size <= capacity
    }

    /** The whole capacity as one byte sequence. */
    ghost function Cells(): (c: seq<Byte>)
      requires Linked()
      reads `nodes, `mems, `root, `capacity, `blocks, nodes, mems
      ensures |c| == capacity
    {
      FlattenLength(blocks, baseSize);
      Flatten(blocks)
    }

    ghost function View(): (f: Flat)
      requires Valid()
      reads this, nodes, mems
      ensures f.WellFormed() && f.pos == position && f.cap == capacity && |f.data| == size
    {
      Flat(Cells()[..size], position, capacity, littleEndian, room)
    }

    lemma NullAtEnd()
      requires Chain() && AtCursor()
      ensures cur == null <==> position >= capacity
    {
      if index < |nodes| {
        StartMonotone(baseSize, index + 1, |nodes|);
      }
    }

    /** The current node is node position / baseSize, and it is null exactly at the end of the capacity. */
    lemma CursorIsQuotient()
      requires Linked() && AtCursor()
      ensures position / baseSize == index && position % baseSize == position - Start(baseSize, index)
      ensures cur == NodeAt(position / baseSize)
      ensures cur == null <==> position >= capacity
    {
      NullAtEnd();
      Locate(baseSize, index, position - Start(baseSize, index));
    }

    constructor (base: nat, hostLittle: bool, room: nat)
      requires base > 0
      ensures Valid() && baseSize == base && this.hostLittle == hostLittle && View() == Flat([], 0, base, false, room)
      ensures fresh(nodes) && fresh(mems)
    {
      baseSize := base;
      this.hostLittle := hostLittle;
      this.room := room;
      position := 0;
      capacity := base;
      size := 0;
      littleEndian := false;
      var n := new Node(base, 0);
      root := n;
      cur := n;
      nodes := [n];
      mems := [n.ptr];
      blocks := [n.ptr[..]];
      index := 0;
    }

    /** memcpy to byte `at` of memory `k`. */
    method Put(ghost k: nat, mem: array<Byte>, at: nat, chunk: seq<Byte>)
      requires Holding() && k < |mems| && mem == mems[k] && at + |chunk| <= baseSize
      modifies mem, this`blocks
      ensures Holding() && Start(baseSize, k) + at + |chunk| <= |old(Flatten(blocks))|
      ensures Flatten(blocks) == Splice(old(Flatten(blocks)), Start(baseSize, k) + at, chunk)
    {
      FlattenSplice(blocks, baseSize, k, at, chunk);
      CopyInto(mem, at, chunk);
      blocks := blocks[k := Splice(blocks[k], at, chunk)];
    }

    /** memcpy out of node `k` at `at`. */
    method Get(ghost k: nat, node: Node, at: nat, n: nat) returns (chunk: seq<Byte>)
      requires Linked() && k < |nodes| && node == nodes[k] && at + n <= baseSize
      ensures Start(baseSize, k) + at + n <= capacity
      ensures chunk == Cells()[Start(baseSize, k) + at..Start(baseSize, k) + at + n]
    {
      chunk := node.ptr[at..at + n];
      FlattenLength(blocks, baseSize);
      PieceHolds(k, at, n);
    }

    twostate lemma ExtendedCells()
      requires old(Linked()) && Linked() && Extended()
      ensures old(capacity) <= capacity && Cells()[..old(capacity)] == old(Cells())
    {
      FlattenAppend(old(blocks), blocks[|old(blocks)|..]);
      assert blocks == old(blocks) + blocks[|old(blocks)|..];
      FlattenLength(old(blocks), baseSize);
      FlattenLength(blocks, baseSize);
    }

    /** Links one more node behind the last one. */
    method AppendNode(tail: Node) returns (n: Node)
      requires Linked() && tail == nodes[|nodes| - 1]
      modifies this`nodes, this`mems, this`blocks, this`capacity, tail`next
      ensures Linked() && nodes == old(nodes) + [n] && mems == old(mems) + [n.ptr] && fresh(n) && fresh(n.ptr)
      ensures blocks == old(blocks) + [n.ptr[..]]
    {
      n := new Node(baseSize, |nodes|);
      tail.next := n;
      capacity := capacity + baseSize;
      nodes := nodes + [n];
      mems := mems + [n.ptr];
      blocks := blocks + [n.ptr[..]];
    }

    method AddCapacity(n: nat)
      requires Valid()
      modifies this`capacity, this`cur, this`nodes, this`mems, this`blocks, nodes
      ensures Valid() && Extended()
      ensures View() == old(View()).(cap := GrownTo(old(capacity), baseSize, position + n))
      ensures position + n <= capacity && (n > 0 ==> cur != null)
    {
      NullAtEnd();
      if n > 0 && capacity - position < n {
        var count := CeilDiv(n - (capacity - position), baseSize);
        GrowthInBlocks(|nodes|, baseSize, capacity, position + n, count);
        Grow(count);
        ExtendedCells();
        assert Cells()[..size] == Cells()[..old(capacity)][..size];
      }
    }

    /** The part of addCapacity behind its early returns. */
    method Grow(count: nat)
      requires Valid() && count > 0
      modifies this`capacity, this`cur, this`nodes, this`mems, this`blocks, nodes
      ensures Valid() && Extended() && |nodes| == |old(nodes)| + count
      ensures cur != null
    {
      NullAtEnd();
      StartMonotone(baseSize, |nodes|, |nodes| + count);
      var atEnd := capacity - position == 0;
      var tail := LastNode();
      var first := AppendNodes(tail, count);
      if atEnd {
        cur := first;
      }
    }

    method LastNode() returns (tmp: Node)
      requires Linked()
      ensures tmp == nodes[|nodes| - 1]
    {
      tmp := root;
      ghost var j := 0;
      while tmp.next != null
        invariant 0 <= j < |nodes| && tmp == nodes[j]
        decreases |nodes| - j
      {
        tmp := tmp.next;
        j := j + 1;
      }
    }

    /** Links `count` nodes behind the last one and returns the first of them. */
    method AppendNodes(tail: Node, count: nat) returns (first: Node?)
      requires Linked() && tail == nodes[|nodes| - 1] && count > 0
      modifies this`capacity, this`nodes, this`mems, this`blocks, nodes
      ensures Linked() && |nodes| == |old(nodes)| + count
      ensures first == nodes[|old(nodes)|]
      ensures Extended()
    {
      var tmp := tail;
      first := null;
      var i := 0;
      while i < count
        invariant 0 <= i <= count
        invariant Linked() && tmp == nodes[|nodes| - 1] && |nodes| == |old(nodes)| + i
        invariant Extended()
        invariant first == if i == 0 then null else nodes[|old(nodes)|]
        invariant if i == 0 then tmp == tail else fresh(tmp)
      {
        tmp := AppendNode(tmp);
        if first == null {
          first := tmp;
        }
        i := i + 1;
      }
    }

    /** How far `position` is into the current node. */
    method Offset() returns (npos: nat)
      requires Linked() && AtCursor()
      ensures npos == position - Start(baseSize, index)
    {
      npos := position % baseSize;
      CursorIsQuotient();
    }

    lemma BaseIsPositive()
      requires Valid()
      ensures baseSize > 0
    {
    }

    method Write(buf: seq<Byte>)
      requires Valid()
      modifies this`position, this`capacity, this`size, this`cur, this`nodes, this`mems, this`blocks, this`index
      modifies nodes, mems
      ensures Valid() && View() == Written(old(View()), baseSize, buf)
      ensures NodesAdded()
    {
      hide Valid, View, Splice, GrownTo, Cells;
      BaseIsPositive();
      WrittenNothing(View(), baseSize);
      if |buf| > 0 {
        AddCapacity(|buf|);
        Fill(buf);
      }
    }

    /** The part of write behind addCapacity. */
    method Fill(buf: seq<Byte>)
      requires Valid() && |buf| > 0 && position + |buf| <= capacity
      modifies this`position, this`size, this`cur, this`blocks, this`index, mems
      ensures Valid() && View() == Overwritten(old(View()), buf)
    {
      ghost var cells := Cells();
      FillFrom(buf);
      SpliceInPrefix(cells, size, old(position), buf);
      if position > size {
        size := position;
      }
    }

    /** The copying loop of write. */
    method FillFrom(buf: seq<Byte>)
      requires Linked() && AtCursor() && |buf| > 0 && position + |buf| <= capacity
      modifies this`position, this`cur, this`blocks, this`index, mems
      ensures Linked() && AtCursor() && position == old(position) + |buf|
      ensures Cells() == Splice(old(Cells()), old(position), buf)
    {
      hide Splice, Cells, Holding;
      NullAtEnd();
      var npos := Offset();
      var ncap := cur.size - npos;
      var bpos := 0;
      var left := |buf|;
      while left > 0
        invariant bpos + left == |buf| && position == old(position) + bpos
        invariant Linked() && AtCursor()
        invariant left > 0 ==> cur != null && npos == position - Start(baseSize, index) && ncap == baseSize - npos
        invariant 0 <= bpos <= |buf|
        invariant Splice(Cells(), position, buf[bpos..]) == Splice(old(Cells()), old(position), buf)
      {
        if ncap >= left {
          CopyIn(buf, bpos, npos, left);
          bpos := bpos + left;
          left := 0;
        } else {
          CopyIn(buf, bpos, npos, ncap);
          bpos := bpos + ncap;
          left := left - ncap;
          NullAtEnd();
          ncap := cur.size;
          npos := 0;
        }
      }
      assert buf[bpos..] == [];
      SpliceNothing(Cells(), position);
    }

    /** One round of the copying loop: memcpy `n` bytes to the current node and move on. */
    method CopyIn(buf: seq<Byte>, bpos: nat, npos: nat, n: nat)
      requires Linked() && AtCursor() && cur != null && npos == position - Start(baseSize, index)
      requires npos + n <= baseSize && bpos + n <= |buf| && position + |buf| - bpos <= capacity
      modifies this`position, this`cur, this`blocks, this`index, mems
      ensures Linked() && AtCursor() && position == old(position) + n
      ensures npos + n == baseSize ==> position == Start(baseSize, index)
      ensures Splice(Cells(), position, buf[bpos + n..]) == Splice(old(Cells()), old(position), buf[bpos..])
    {
      ghost var cells, rest := Cells(), buf[bpos + n..];
      var chunk := buf[bpos..bpos + n];
      assert chunk + rest == buf[bpos..];
      SpliceTwice(cells, position, chunk, rest);
      Put(index, cur.ptr, npos, chunk);
      Advance(npos, n);
    }

    /** Moves the cursor by `n` bytes inside the current node, and to the next node at its end. */
    method Advance(npos: nat, n: nat)
      requires Linked() && AtCursor() && cur != null && npos == position - Start(baseSize, index)
      requires npos + n <= baseSize
      modifies this`position, this`cur, this`index
      ensures AtCursor() && position == old(position) + n
      ensures npos + n == baseSize ==> position == Start(baseSize, index)
    {
      if cur.size == npos + n {
        cur := cur.next;
        index := index + 1;
      }
      position := position + n;
    }

    method Read(n: nat) returns (r: ReadOutcome)
      requires Valid()
      modifies this`position, this`cur, this`index
      ensures Valid() && (r, View()) == ReadFrom(old(View()), n)
      ensures r == OutOfRange <==> n > old(size) - old(position)
      ensures r == NullCursor <==> n == 0 && old(position) == old(capacity)
      ensures r == OutOfRange || r == NullCursor ==>
                View() == old(View()) && position == old(position) && cur == old(cur) && index == old(index)
      ensures r != OutOfRange && r != NullCursor ==>
                && r == Data(old(View()).data[old(position)..old(position) + n])
                && position == old(position) + n && View() == old(View()).(pos := position)
    {
      NullAtEnd();
      if n > size - position {
        r := OutOfRange;
      } else if cur == null {
        r := NullCursor;
      } else {
        var bytes := Drain(n);
        r := Data(bytes);
        assert Cells()[..size][old(position)..position] == Cells()[old(position)..position];
      }
    }

    /** The copying loop of read. */
    method Drain(n: nat) returns (bytes: seq<Byte>)
      requires Linked() && AtCursor() && cur != null && position + n <= capacity
      modifies this`position, this`cur, this`index
      ensures AtCursor() && position == old(position) + n
      ensures bytes == Cells()[old(position)..position]
    {
      hide Cells, Holding;
      ghost var cells := Cells();
      var npos := Offset();
      var ncap := cur.size - npos;
      bytes := [];
      var left := n;
      while left > 0
        invariant 0 <= left <= n && position == old(position) + n - left && Cells() == cells
        invariant AtCursor()
        invariant left > 0 ==> cur != null && npos == position - Start(baseSize, index) && ncap == baseSize - npos
        invariant bytes == cells[old(position)..position]
      {
        ghost var before := position;
        if ncap >= left {
          var chunk := CopyOut(npos, left);
          bytes := bytes + chunk;
          left := 0;
        } else {
          var chunk := CopyOut(npos, ncap);
          bytes := bytes + chunk;
          left := left - ncap;
          NullAtEnd();
          ncap := cur.size;
          npos := 0;
        }
        SlicesJoin(cells, old(position), before, position);
      }
    }

    /** One round of the copying loop: memcpy `n` bytes out of the current node and move on. */
    method CopyOut(npos: nat, n: nat) returns (chunk: seq<Byte>)
      requires Linked() && AtCursor() && cur != null && npos == position - Start(baseSize, index)
      requires npos + n <= baseSize
      modifies this`position, this`cur, this`index
      ensures AtCursor() && position == old(position) + n <= capacity
      ensures npos + n == baseSize ==> position == Start(baseSize, index)
      ensures chunk == Cells()[old(position)..position]
    {
      chunk := Get(index, cur, npos, n);
      Advance(npos, n);
    }

    /** The positional read, which leaves the cursor alone. */
    method ReadAtPosition(n: nat, pos: nat) returns (r: ReadOutcome)
      requires Valid()
      ensures r == ReadAt(View(), Cells(), baseSize, n, pos)
    {
      NullAtEnd();
      CursorIsQuotient();
      if n > Unread(size, pos) {
        return OutOfRange;
      }
      if cur == null {
        return NullCursor;
      }
      r := Peek(cur, index, pos % baseSize, n);
    }

    /** Node `j` and the link behind it. */
    lemma NodeIs(j: nat)
      requires Linked() && j < |nodes|
      ensures |nodes| == |mems| && nodes[j].size == baseSize > 0 && nodes[j].ptr == mems[j]
      ensures nodes[j].next == NodeAt(j + 1)
      ensures Start(baseSize, j + 1) == Start(baseSize, j) + baseSize <= capacity == Start(baseSize, |nodes|)
    {
      StartMonotone(baseSize, j + 1, |nodes|);
    }

    /** The copying loop of the positional read, from byte `at` of node `k` on. */
    method Peek(node: Node, ghost k: nat, at: nat, n: nat) returns (r: ReadOutcome)
      requires Linked() && k < |nodes| && node == nodes[k] && at < baseSize
      ensures var from := Start(baseSize, k) + at;
              r == if from + n > capacity then NullCursor else Data(Cells()[from..from + n])
    {
      hide Cells, Holding, Chain;
      NodeIs(k);
      var npos := at;
      var ncap := node.size - npos;
      var c: Node? := node;
      ghost var from: nat, j: nat := Start(baseSize, k) + at, k;
      ghost var cells := Cells();
      var bytes := [];
      var left := n;
      ghost var got: nat := from;
      while left > 0
        invariant 0 <= left && got + left == from + n && from <= got <= |cells| && bytes == cells[from..got]
        invariant left > 0 ==> j < |nodes| && c == nodes[j] && 0 <= npos < baseSize && ncap == baseSize - npos
        invariant left > 0 ==> Start(baseSize, j) + npos == got
      {
        NodeIs(j);
        var m := if ncap >= left then left else ncap;
        var chunk := Get(j, c, npos, m);
        SlicesJoin(cells, from, got, got + m);
        bytes := bytes + chunk;
        got := got + m;
        if ncap >= left {
          if c.size == npos + left {
            c := c.next;
          }
          left := 0;
        } else {
          left := left - ncap;
          c := c.next;
          j := j + 1;
          if c == null {
            return NullCursor;
          }
          NodeIs(j);
          ncap := c.size;
          npos := 0;
        }
      }
      r := Data(bytes);
    }

    /** The unread bytes. */
    method ToString() returns (str: seq<Byte>)
      requires Valid()
      ensures str == View().data[View().pos..]
    {
      if size - position == 0 {
        return [];
      }
      var r := ReadAtPosition(size - position, position);
      str := r.bytes;
    }

    method SetPosition(v: nat) returns (ok: bool)
      requires Valid()
      modifies this`position, this`size, this`cur, this`index
      ensures Valid() && ok == (v <= capacity) && Cells() == old(Cells())
      ensures !ok ==> View() == old(View()) && cur == old(cur) && index == old(index)
      ensures ok ==>
                && size == (if v > old(size) then v else old(size))
                && View() == old(View()).(data := Cells()[..size], pos := v)
    {
      hide Holding, Cells;
      if v > capacity {
        return false;
      }
      position := v;
      if position > size {
        size := position;
      }
      Seek(v);
      ok := true;
    }

    /** Walks from the first node to the one that byte `v` falls into. */
    method Seek(v: nat)
      requires Linked() && v <= capacity
      modifies this`cur, this`index
      ensures index <= |nodes| && cur == NodeAt(index)
      ensures Start(baseSize, index) <= v < Start(baseSize, index) + baseSize
    {
      cur, index := root, 0;
      var rest := v;
      while rest > cur.size
        invariant index < |nodes| && cur == nodes[index] && 0 <= rest == v - Start(baseSize, index)
      {
        StartMonotone(baseSize, index + 1, |nodes|);
        rest := rest - cur.size;
        cur := cur.next;
        index := index + 1;
      }
      if rest == cur.size {
        cur := cur.next;
        index := index + 1;
      }
    }

    method Clear()
      requires Valid()
      modifies this`position, this`size, this`capacity, this`cur, this`index, this`nodes, this`mems, this`blocks, root
      ensures Valid() && View() == Flat([], 0, baseSize, littleEndian, room) && nodes == [root]
    {
      position, size := 0, 0;
      capacity := baseSize;
      cur, index := root, 0;
      root.next := null;
      nodes, mems, blocks := [root], [root.ptr], [blocks[0]];
      OneNode();
    }

    /** What is left of the list is a buffer of one node. */
    lemma OneNode()
      requires baseSize > 0 && root.id == 0 && root.size == baseSize && root.ptr.Length == baseSize && root.next == null
      requires nodes == [root] && mems == [root.ptr] && |blocks| == 1 && blocks[0] == root.ptr[..]
      requires position == size == 0 && capacity == baseSize && cur == root && index == 0
      ensures Valid()
    {
    }

    // ------------------------------------------------------------ scatter/gather

    /** The slices cover the capacity from byte `from` on, in order; that is byte `at` of node `k`. */
    lemma {:induction false} PiecesHold(cells: seq<Byte>, from: nat, k: nat, at: nat, len: nat)
      requires Holding() && k < |mems| && at < baseSize && cells == Flatten(blocks) && from == Start(baseSize, k) + at
      requires from + len <= |cells| == Start(baseSize, |mems|)
      ensures var p := Pieces(mems, baseSize, k, at, len);
              Fit(p) && Gathered(p) == cells[from..from + len]
      decreases len
    {
      hide Holding, Flatten, Pieces, Gathered;
      if len == 0 {
        NoPieces(k, at);
      } else {
        var n := if baseSize - at >= len then len else baseSize - at;
        FirstPiece(mems, baseSize, k, at, len);
        PieceHolds(k, at, n);
        var rest := Pieces(mems, baseSize, k, at, len)[1..];
        if n < len {
          PiecesHold(cells, from + n, k + 1, 0, len - n);
        } else {
          NothingGathered();
        }
        PieceBefore(cells, from, Slice(mems[k], at, n), rest, len);
      }
    }

    lemma NoPieces(k: nat, at: nat)
      requires k < |mems| && at < baseSize && Start(baseSize, k) + at <= Start(baseSize, |mems|)
      ensures var p := Pieces(mems, baseSize, k, at, 0); Fit(p) && Gathered(p) == []
    {
    }

    lemma NothingGathered()
      ensures Fit([]) && Gathered([]) == []
    {
    }

    lemma PieceBefore(cells: seq<Byte>, from: nat, s: Slice, rest: seq<Slice>, len: nat)
      requires Fit(rest) && s.from + s.len <= s.mem.Length && s.len <= len && from + len <= |cells|
      requires s.mem[s.from..s.from + s.len] == cells[from..from + s.len]
      requires Gathered(rest) == cells[from + s.len..from + len]
      ensures Fit([s] + rest) && Gathered([s] + rest) == cells[from..from + len]
    {
      GatheredCons(s, rest);
    }

    lemma PieceHolds(k: nat, at: nat, n: nat)
      requires Holding() && k < |mems| && at + n <= baseSize
      ensures mems[k].Length == baseSize
      ensures var from := Start(baseSize, k) + at;
              from + n <= |Flatten(blocks)| && mems[k][at..at + n] == Flatten(blocks)[from..from + n]
    {
      FlattenBlock(blocks, baseSize, k);
      var start, cells, block := Start(baseSize, k), Flatten(blocks), blocks[k];
      assert block == cells[start..start + baseSize];
      SliceOfSlice(cells, start, start + baseSize, at, n);
      assert mems[k][at..at + n] == block[at..at + n];
    }

    lemma NoneLeft(k: nat, at: nat)
      requires baseSize > 0 && k < |mems| && at < baseSize
      ensures Start(baseSize, k) + at <= Start(baseSize, |mems|) && Pieces(mems, baseSize, k, at, 0) == []
    {
      StartMonotone(baseSize, k + 1, |mems|);
    }

    /** The slice-building loop of getReadBuffers and getWriteBuffers; None where it would run behind the last node. */
    method Collect(node: Node, ghost k: nat, at: nat, len: nat) returns (slices: Option<seq<Slice>>)
      requires Linked() && k < |nodes| && node == nodes[k] && at < baseSize
      ensures if Start(baseSize, k) + at + len <= capacity then slices == Some(Pieces(mems, baseSize, k, at, len))
              else slices == None
    {
      hide Chain, Holding, Pieces;
      NodeIs(k);
      NoneLeft(k, at);
      var npos: nat := at;
      var ncap := node.size - npos;
      var c: Node? := node;
      ghost var j: nat := k;
      ghost var fits := Start(baseSize, k) + at + len <= capacity;
      var done: seq<Slice> := [];
      var left := len;
      while left > 0
        invariant 0 <= left <= len
        invariant left > 0 ==> j < |nodes| && c == nodes[j] && npos < baseSize && ncap == baseSize - npos
        invariant left > 0 ==> (fits <==> Start(baseSize, j) + npos + left <= capacity)
        invariant left > 0 && fits ==>
                  done + Pieces(mems, baseSize, j, npos, left) == Pieces(mems, baseSize, k, at, len)
        invariant left == 0 ==> fits && done == Pieces(mems, baseSize, k, at, len)
      {
        NodeIs(j);
        if fits { FirstPiece(mems, baseSize, j, npos, left); }
        if ncap >= left {
          done := done + [Slice(c.ptr, npos, left)];
          left := 0;
        } else {
          done := done + [Slice(c.ptr, npos, ncap)];
          left := left - ncap;
          c := c.next;
          j := j + 1;
          if c == null {
            return None;
          }
          NodeIs(j);
          ncap := c.size;
          npos := 0;
        }
      }
      slices := Some(done);
    }

    /** The unread bytes, at most `len` of them, as slices of the nodes. */
    method GetReadBuffers(len: nat) returns (slices: seq<Slice>, total: nat)
      requires Valid()
      ensures total == if len > size - position then size - position else len
      ensures Fit(slices) && Gathered(slices) == View().data[position..position + total]
    {
      hide Chain, Holding, Cells, Gathered;
      total := if len > size - position then size - position else len;
      slices := [];
      NothingGathered();
      if total > 0 {
        NullAtEnd();
        slices := SlicesHere(total);
        SliceOfPrefix(Cells(), size, position, position + total);
      }
    }

    lemma IndexInRange()
      requires Linked() && AtCursor() && cur != null
      ensures index < |nodes| == |mems| && cur == nodes[index] && position - Start(baseSize, index) < baseSize
      ensures |Cells()| == capacity == Start(baseSize, |mems|) && Cells() == Flatten(blocks)
    {
    }

    /** The slices of `len` bytes from the position on. */
    method SlicesHere(len: nat) returns (slices: seq<Slice>)
      requires Linked() && AtCursor() && cur != null && position + len <= capacity
      ensures slices == Pieces(mems, baseSize, index, position - Start(baseSize, index), len)
      ensures Fit(slices) && Gathered(slices) == Cells()[position..position + len]
    {
      hide Chain, Holding, Cells, Gathered, Fit;
      var npos := Offset();
      IndexInRange();
      var found := Collect(cur, index, npos, len);
      slices := found.value;
      PiecesHold(Cells(), position, index, npos, len);
    }

    /**
     The same from any position; the length is still cut to the unread size.  None
     where it would run behind the last node; in front of that, bytes behind the
     size are handed out too.
     */
    method GetReadBuffersFrom(len: nat, from: nat) returns (slices: Option<seq<Slice>>, total: nat)
      requires Valid()
      ensures total == if len > size - position then size - position else len
      ensures slices.None? <==> total > 0 && from + total > capacity
      ensures slices.Some? ==>
                Fit(slices.value) && Gathered(slices.value) == if total == 0 then [] else Cells()[from..from + total]
      ensures from <= position ==> slices.Some? && Gathered(slices.value) == View().data[from..from + total]
    {
      hide Chain, Holding, Cells, Gathered;
      total := if len > size - position then size - position else len;
      slices := Some([]);
      NothingGathered();
      if total > 0 {
        slices := SlicesFrom(from, total);
        if from <= position { SliceOfPrefix(Cells(), size, from, from + total); }
      }
    }

    method SlicesFrom(from: nat, len: nat) returns (slices: Option<seq<Slice>>)
      requires Linked() && len > 0
      ensures slices.None? <==> from + len > capacity
      ensures slices.Some? ==> Fit(slices.value) && Gathered(slices.value) == Cells()[from..from + len]
    {
      var npos := from % baseSize;
      var node, k := NodeHolding(from);
      if node == null {
        return None;
      }
      slices := Collect(node, k, npos, len);
      if slices.Some? {
        PiecesHold(Cells(), from, k, npos, len);
      }
    }

    /** Walks to node from / baseSize; null where it would run behind the last node, or stop there. */
    method NodeHolding(from: nat) returns (node: Node?, ghost k: nat)
      requires Linked()
      ensures if from < capacity then k < |nodes| && node == nodes[k] && from == Start(baseSize, k) + from % baseSize
              else node == null
    {
      var count := from / baseSize;
      ghost var q := count;
      LocateBack(baseSize, from);
      if q < |nodes| {
        StartMonotone(baseSize, q + 1, |nodes|);
      } else {
        StartMonotone(baseSize, |nodes|, q);
      }
      node, k := root, 0;
      while count > 0
        invariant 0 <= count && 0 <= k && k + count == q && k <= |nodes| && node == NodeAt(k)
      {
        if node == null {
          return null, k;
        }
        node := node.next;
        k := k + 1;
        count := count - 1;
      }
    }

    /** Room for `len` bytes from the position on, as slices of the nodes. */
    method GetWriteBuffers(len: nat) returns (slices: seq<Slice>)
      requires Valid()
      modifies this`capacity, this`cur, this`nodes, this`mems, this`blocks, nodes
      ensures Valid() && NodesAdded() && position + len <= capacity
      ensures View() == old(View()).(cap := GrownTo(old(capacity), baseSize, position + len))
      ensures len > 0 ==> index < |mems|
      ensures slices == if len == 0 then [] else Pieces(mems, baseSize, index, position - Start(baseSize, index), len)
    {
      hide Pieces, GrownTo, Gathered, Holding, Cells;
      AddCapacity(len);
      if len == 0 {
        slices := [];
      } else {
        slices := SlicesHere(len);
      }
    }

    /** What the socket does with the slices: fills them in order with the bytes it received. */
    method Scatter(slices: seq<Slice>, received: seq<Byte>, ghost from: nat, ghost k: nat, ghost at: nat,
            ghost len: nat)
      requires Holding() && k < |mems| && at < baseSize && from == Start(baseSize, k) + at && |received| <= len
      requires from + len <= |Flatten(blocks)| == Start(baseSize, |mems|)
      requires slices == Pieces(mems, baseSize, k, at, len)
      modifies mems, this`blocks
      ensures Holding() && Flatten(blocks) == Splice(old(Flatten(blocks)), from, received)
      decreases |slices|
    {
      hide Splice, Flatten, Holding, Pieces;
      SpliceNothing(Flatten(blocks), from);
      if |received| > 0 {
        FirstPiece(mems, baseSize, k, at, len);
        var s := slices[0];
        var n := if |received| < s.len then |received| else s.len;
        var first, rest := received[..n], received[n..];
        assert received == first + rest;
        SpliceTwice(Flatten(blocks), from, first, rest);
        Put(k, s.mem, s.from, first);
        SpliceNothing(Flatten(blocks), from + n);
        if rest != [] {
          Scatter(slices[1..], rest, from + n, k + 1, 0, len - n);
        }
      }
    }

    /** Reading from a socket into the buffer: take slices for `len` bytes, let them be filled, move the position. */
    method Receive(len: nat, received: seq<Byte>)
      requires Valid() && |received| <= len
      modifies this`position, this`capacity, this`size, this`cur, this`nodes, this`mems, this`blocks, this`index
      modifies nodes, mems
      ensures Valid() && NodesAdded()
      ensures View()
              == Overwritten(old(View()), received).(cap := GrownTo(old(capacity), baseSize, old(position) + len))
    {
      hide Splice, GrownTo, Cells, Pieces, Chain, Holding;
      SpliceNothing(View().data, position);
      var slices := GetWriteBuffers(len);
      if |received| > 0 {
        Accept(slices, received, len);
      }
    }

    method Accept(slices: seq<Slice>, received: seq<Byte>, ghost len: nat)
      requires Valid() && 0 < |received| <= len && position + len <= capacity && index < |mems|
      requires slices == Pieces(mems, baseSize, index, position - Start(baseSize, index), len)
      modifies this`position, this`size, this`cur, this`blocks, this`index, mems
      ensures Valid() && View() == Overwritten(old(View()), received)
    {
      ghost var cells := Cells();
      Scatter(slices, received, position, index, position - Start(baseSize, index), len);
      ghost var filled := Cells();
      SpliceInPrefix(cells, size, position, received);
      var ok := SetPosition(position + |received|);
    }

    // ------------------------------------------------------------------- codecs

    /** writeFuint16 and its likes: swap when the orders differ, then store in host order. */
    method WriteFixed(w: nat, v: nat)
      requires Valid() && v < Pow256(w)
      modifies this, nodes, mems
      ensures Valid() && NodesAdded()
      ensures View() == Written(old(View()), baseSize, FixedBytes(v, w, old(littleEndian)))
    {
      var value := v;
      if littleEndian != hostLittle {
        value := ByteSwap(value, w);
      }
      HostOrderIrrelevant(v, w, littleEndian, hostLittle);
      Write(FixedBytes(value, w, hostLittle));
    }

    /** writeUint32 and writeUint64: seven bits at a time into a scratch buffer. */
    method WriteVarint(v: nat)
      requires Valid()
      modifies this, nodes, mems
      ensures Valid() && NodesAdded()
      ensures View() == Written(old(View()), baseSize, Varint(v))
    {
      var value := v;
      var tmp: seq<Byte> := [];
      while value >= 128
        invariant tmp + Varint(value) == Varint(v)
      {
        tmp := tmp + [value % 128 + 128];
        value := value / 128;
      }
      tmp := tmp + [value];
      Write(tmp);
    }

    method WritePrefix(p: Prefix, n: nat)
      requires Valid()
      modifies this, nodes, mems
      ensures Valid() && NodesAdded()
      ensures View() == Written(old(View()), baseSize, PrefixBytes(p, n, old(littleEndian)))
    {
      match p {
        case F16 => WriteFixed(2, n % Pow256(2));
        case F32 => WriteFixed(4, n % Pow256(4));
        case F64 => WriteFixed(8, n % Pow256(8));
        case Vint => WriteVarint(n % Pow2(64));
      }
    }

    method WriteText(p: Prefix, s: seq<Byte>)
      requires Valid()
      modifies this, nodes, mems
      ensures Valid() && NodesAdded()
      ensures View() == Written(old(View()), baseSize, PrefixBytes(p, |s|, old(littleEndian)) + s)
    {
      WrittenTwice(View(), baseSize, PrefixBytes(p, |s|, littleEndian), s);
      WritePrefix(p, |s|);
      Write(s);
    }

    method ReadFixed(w: nat) returns (r: Got<nat>)
      requires Valid()
      modifies this`position, this`cur, this`index
      ensures Valid() && (r, View()) == BytePrograms.ReadFixed(old(View()), w)
    {
      var o := Read(w);
      if o.Data? {
        HostOrderIrrelevantForReading(o.bytes, littleEndian, hostLittle);
        var v := FromFixedBytes(o.bytes, hostLittle);
        r := Ok(if littleEndian == hostLittle then v else ByteSwap(v, w));
      } else {
        r := Failed(o);
      }
    }

    /** readUint32 and readUint64. */
    method ReadVarint(bits: nat) returns (r: Got<nat>)
      requires Valid()
      modifies this`position, this`cur, this`index
      ensures Valid() && (r, View()) == BytePrograms.ReadVarint(old(View()), bits, 0, 0)
    {
      hide Valid, View, ReadFrom, ShiftLeft;
      var result: nat := 0;
      var i: nat := 0;
      while i < bits
        invariant Valid()
        invariant BytePrograms.ReadVarint(View(), bits, i, result) == BytePrograms.ReadVarint(old(View()), bits, 0, 0)
        decreases if i < bits then bits - i else 0
      {
        ReadsOne(View());
        var o := Read(1);
        if !o.Data? {
          return Failed(o);
        }
        var b := o.bytes[0];
        result := result + ShiftLeft(b % 128, i, bits);
        if b < 128 {
          return Ok(result);
        }
        i := i + 7;
      }
      r := Ok(result);
    }

    method ReadPrefix(p: Prefix) returns (r: Got<nat>)
      requires Valid()
      modifies this`position, this`cur, this`index
      ensures Valid() && (r, View()) == BytePrograms.ReadPrefix(old(View()), p)
    {
      match p {
        case F16 => r := ReadFixed(2);
        case F32 => r := ReadFixed(4);
        case F64 => r := ReadFixed(8);
        case Vint => r := ReadVarint(64);
      }
    }

    method ReadText(p: Prefix) returns (r: Got<seq<Byte>>)
      requires Valid()
      modifies this`position, this`cur, this`index
      ensures Valid() && (r, View()) == BytePrograms.ReadText(old(View()), p)
    {
      var n := ReadPrefix(p);
      if n.Failed? {
        return Failed(n.how);
      }
      if n.value > room {
        return Failed(TooLong);
      }
      var o := Read(n.value);
      r := if o.Data? then Ok(o.bytes) else Failed(o);
    }

    method WriteItem(item: Item)
      requires Valid() && item.WellTyped()
      modifies this, nodes, mems
      ensures Valid() && NodesAdded()
      ensures View() == BytePrograms.WriteItem(old(View()), baseSize, item)
    {
      match item {
        case Fixed(w, _, v) => WriteFixed(w, Unsigned(v, w));
        case VarUint(_, u) => WriteVarint(u);
        case VarInt(bits, i) => WriteVarint(EncodeZigzag(i, bits));
        case Text(p, s) => WriteText(p, s);
        case Order(little) => littleEndian := little;
      }
    }

    method ReadItem(kind: Kind) returns (r: Got<Item>)
      requires Valid() && kind.Readable()
      modifies this`position, this`cur, this`index, this`littleEndian
      ensures Valid() && (r, View()) == BytePrograms.ReadItem(old(View()), kind)
    {
      match kind {
        case KFixed(w, signed) =>
          var n := ReadFixed(w);
          r := if n.Ok? then Ok(Fixed(w, signed, if signed then Signed(n.value, w) else n.value)) else Failed(n.how);
        case KVarUint(bits) =>
          var n := ReadVarint(bits);
          r := if n.Ok? then Ok(VarUint(bits, n.value)) else Failed(n.how);
        case KVarInt(bits) =>
          ReadVarintFits(View(), bits, 0, 0);
          var n := ReadVarint(bits);
          r := if n.Ok? then Ok(VarInt(bits, DecodeZigzag(n.value, bits))) else Failed(n.how);
        case KText(p) =>
          var s := ReadText(p);
          r := if s.Ok? then Ok(Text(p, s.value)) else Failed(s.how);
        case KOrder(little) =>
          littleEndian := little;
          r := Ok(Order(little));
      }
    }

    method WriteAll(items: seq<Item>)
      requires Valid() && AllTyped(items)
      modifies this, nodes, mems
      ensures Valid() && NodesAdded()
      ensures View() == WriteProgram(old(View()), baseSize, items)
    {
      var i := 0;
      while i < |items|
        invariant 0 <= i <= |items| && Valid() && NodesAdded()
        invariant WriteProgram(View(), baseSize, items[i..]) == WriteProgram(old(View()), baseSize, items)
      {
        assert items[i..][1..] == items[i + 1..];
        WriteItem(items[i]);
        i := i + 1;
      }
    }

    /** Reads one item after the other until one fails. */
    method ReadAll(kinds: seq<Kind>) returns (r: Got<seq<Item>>)
      requires Valid() && forall k :: k in kinds ==> k.Readable()
      modifies this`position, this`cur, this`index, this`littleEndian
      ensures Valid() && (r, View()) == ReadProgram(old(View()), kinds)
      decreases |kinds|
    {
      if kinds == [] {
        return Ok([]);
      }
      var first := ReadItem(kinds[0]);
      if first.Failed? {
        return Failed(first.how);
      }
      r := ReadAll(kinds[1..]);
      if r.Ok? {
        r := Ok([first.value] + r.value);
      }
    }

    /** The test program: write, go back, read, compare; here for every list of items and every state of the buffer. */
    method WriteThenRead(items: seq<Item>) returns (r: Got<seq<Item>>)
      requires Valid() && AllTyped(items)
      modifies this, nodes, mems
      ensures Valid()
      ensures var g := WriteProgram(old(View()), baseSize, items);
              && (r == Ok(items) <==> AllFit(items, room) && !(EndsOnEmptyText(items) && g.pos == g.cap))
              && (r == Ok(items) ==> View() == g)
    {
      hide WriteProgram, ReadProgram, EndsOnEmptyText;
      var start, order := position, littleEndian;
      ghost var f := View();
      WriteAll(items);
      ghost var g := View();
      ProgramRoundTrip(f, baseSize, items);
      Rewind(start, order);
      assert View() == g.(pos := f.pos, little := f.little);
      r := ReadAll(Kinds(items));
    }

    method Rewind(start: nat, order: bool)
      requires Valid() && start <= position
      modifies this`position, this`size, this`cur, this`index, this`littleEndian
      ensures Valid() && View() == old(View()).(pos := start, little := order)
    {
      var ok := SetPosition(start);
      littleEndian := order;
    }
  }
}
