/**
 The operations on reference-counted buffers (velox/buffer/Buffer.h and Buffer.cpp): allocation from a pool,
 sharing, release, slices that keep their parent alive, `reallocate` and `appendTo`.
 */
module BufferMemory {
  import opened Options
  import opened Buffers

  // ----- cells -----

  /** `fillNewMemory`: an initial value is the cells of one element, repeated from a multiple of its width. */
  method FillNewMemory<V>(data: seq<Option<V>>, from: nat, to: nat, init: Option<seq<V>>) returns (r: seq<Option<V>>)
    requires to <= |data| && (init.Some? ==> init.value != [])
    ensures |r| == |data|
    ensures forall i :: 0 <= i < |r| ==>
              r[i] == if from <= i < to && init.Some? then Some(init.value[i % |init.value|]) else data[i]
  {
    r := data;
    if to <= from || init.None? {
      return;
    }
    for i := from to to
      invariant |r| == |data|
      invariant forall k :: 0 <= k < |r| ==>
          r[k] == if from <= k < i then Some(init.value[k % |init.value|]) else data[k]
    {
      r := r[i := Some(init.value[i % |init.value|])];
    }
  }

  /** `copyFrom` and memcpy. */
  method CopyCells<V>(data: seq<Option<V>>, from: seq<Option<V>>, count: nat) returns (r: seq<Option<V>>)
    requires count <= |data| && count <= |from|
    ensures |r| == |data| && forall i :: 0 <= i < |r| ==> r[i] == if i < count then from[i] else data[i]
  {
    r := data;
    for i := 0 to count
      invariant |r| == |data| && forall k :: 0 <= k < |r| ==> r[k] == if k < i then from[k] else data[k]
    {
      r := r[i := from[i]];
    }
  }

  function Filled<V>(items: seq<V>): (cells: seq<Option<V>>)
    ensures |cells| == |items|
  {
    seq(|items|, i requires 0 <= i < |items| => Some(items[i]))
  }

  /** memcpy of `items` to position `at`. */
  method WriteCells<V>(data: seq<Option<V>>, at: nat, items: seq<V>) returns (r: seq<Option<V>>)
    requires at + |items| <= |data|
    ensures r == data[..at] + Filled(items) + data[at + |items|..]
  {
    r := data;
    for i := 0 to |items|
      invariant |r| == |data|
      invariant forall k :: 0 <= k < |r| ==> r[k] == if at <= k < at + i then Some(items[k - at]) else data[k]
    {
      r := r[at + i := Some(items[i])];
    }
  }

  /** `NonPODAlignedBuffer::setSize`: objects are constructed or destroyed; bytes are left as they are. */
  method ResizeCells<V>(pod: bool, data: seq<Option<V>>, count: nat, newCount: nat, value: V)
    returns (r: seq<Option<V>>)
    requires count <= |data| && newCount <= |data|
    ensures |r| == |data| && (pod ==> r == data)
    ensures !pod ==> forall i :: 0 <= i < |r| ==>
              r[i] == if count <= i < newCount then Some(value) else if newCount <= i < count then None else data[i]
  {
    r := data;
    if pod {
      return;
    }
    for i := count to if newCount > count then newCount else count
      invariant |r| == |data| && forall k :: 0 <= k < |r| ==> r[k] == if count <= k < i then Some(value) else data[k]
    {
      r := r[i := Some(value)];
    }
    for i := newCount to if count > newCount then count else newCount
      invariant |r| == |data|
      invariant forall k :: 0 <= k < |r| ==>
                  r[k] == if count <= k < newCount then Some(value) else if newCount <= k < i then None else data[k]
    {
      r := r[i := None];
    }
  }

  /** `releaseResources`: the destructors of the first `size / sizeof(T)` objects leave none alive. */
  method ReleaseResources<V>(b: Buffer<V>) returns (data: seq<Option<V>>)
    requires b.Owned? && OwnedValid(b)
    ensures |data| == |b.data| && (!b.pod ==> forall i :: 0 <= i < |data| ==> data[i].None?)
  {
    data := b.data;
    if !b.pod {
      for i := 0 to b.count
        invariant |data| == |b.data| && forall k :: 0 <= k < |data| ==> data[k] == if k < i then None else b.data[k]
      {
        data := data[i := None];
      }
    }
  }

  function Min(a: nat, b: nat): nat {
    if a < b then a else b
  }

  /** A list of `before`'s cells resized to `count` cells, the new ones holding `init` if there is one. */
  ghost predicate Resized<V>(before: seq<Option<V>>, after: seq<Option<V>>, count: nat, init: Option<seq<V>>) {
    && |after| == count
    && forall i :: 0 <= i < count ==>
         if i < |before| then after[i] == before[i]
         else init.Some? && init.value != [] ==> after[i] == Some(init.value[i % |init.value|])
  }

  /** What `reallocate` asks for: cells in an element, and an initial value of that width for objects. */
  predicate Layout<V>(pod: bool, unit: nat, width: nat, init: Option<seq<V>>) {
    && unit > 0 && width > 0 && (pod ==> unit == 1) && (!pod ==> width == 1 && init.Some?)
    && (init.Some? ==> |init.value| == width)
  }

  /** The three ways in which `reallocate` fills a new block of `cells` cells. */
  method ReallocatedCells<V>(old': Buffer<V>, count: nat, cells: nat, width: nat, init: Option<seq<V>>)
    returns (data: seq<Option<V>>)
    requires old'.Owned? && OwnedValid(old') && Layout(old'.pod, old'.unit, width, init) && count <= cells
    ensures |data| == cells && Resized(old'.data[..old'.count], data[..count], count, init)
    ensures !old'.pod ==> forall i :: 0 <= i < cells ==> (data[i].Some? <==> i < count)
  {
    data := seq(cells, _ => None);
    var kept := Min(count, old'.count);
    if !old'.pod {
      // All the new objects are constructed, and the kept ones assigned.
      data := FillNewMemory(data, 0, count, init);
      data := CopyCells(data, old'.data, kept);
    } else if old'.refCount > 1 {
      data := CopyCells(data, old'.data, kept);
      data := FillNewMemory(data, old'.count, count, init);
    } else {
      // The pool moves the whole block.
      data := CopyCells(data, old'.data, Min(|old'.data|, cells));
      data := FillNewMemory(data, old'.count, count, init);
    }
  }

  function Concatenated<V>(batches: seq<seq<V>>, n: nat): seq<V>
    requires n <= |batches|
  {
    if n == 0 then [] else Concatenated(batches, n - 1) + batches[n - 1]
  }

  lemma OneMore<V>(before: seq<Option<V>>, batches: seq<seq<V>>, i: nat)
    requires i < |batches|
    ensures before + Filled(Concatenated(batches, i)) + Filled(batches[i])
        == before + Filled(Concatenated(batches, i + 1))
  {
  }

  /** What a program may do with its variables, which are numbered from 0. */
  datatype Event<V> =
    | Allocates(v: nat, pod: bool, unit: nat, numElements: nat, width: nat, init: Option<seq<V>>)
    | Shares(to: nat, from: nat)
    | Releases(v: nat)
    | Reallocates(v: nat, numElements: nat, width: nat, init: Option<seq<V>>)
    | Appends(v: nat, items: seq<V>)
    | Slices(to: nat, from: nat, offset: nat, length: nat, width: nat)
    | SetsSize(v: nat, count: nat, value: V)

  /** The local variable of `reallocate`. */
  const LOCAL := -1

  // ----- who sees an append -----

  /** `b` after `items` have been written behind its contents. */
  function Appended<V>(b: Buffer<V>, items: seq<V>): Buffer<V>
    requires b.Owned? && b.count + |items| <= |b.data|
  {
    b.(data := b.data[..b.count] + Filled(items) + b.data[b.count + |items|..], count := b.count + |items|)
  }

  /** Some cell from `lo` to `hi` is written, and with something else than it holds. */
  ghost predicate Changed<V>(data: seq<Option<V>>, count: nat, items: seq<V>, lo: nat, hi: nat)
    requires count + |items| <= |data|
  {
    exists k :: lo <= k < hi && count <= k < count + |items| && data[k] != Some(items[k - count])
  }

  lemma ChangedIff<V>(data: seq<Option<V>>, count: nat, items: seq<V>, lo: nat, hi: nat)
    requires count + |items| <= |data| && lo <= hi <= |data|
    ensures var written := data[..count] + Filled(items) + data[count + |items|..];
            written[lo..hi] != data[lo..hi] <==> Changed(data, count, items, lo, hi)
  {
    var written := data[..count] + Filled(items) + data[count + |items|..];
    if written[lo..hi] == data[lo..hi] {
      forall k | lo <= k < hi && count <= k < count + |items| ensures data[k] == Some(items[k - count]) {
        assert written[lo..hi][k - lo] == data[lo..hi][k - lo];
      }
    } else {
      var i :| 0 <= i < hi - lo && written[lo..hi][i] != data[lo..hi][i];
      assert written[lo + i] != data[lo + i];
    }
  }

  /** Buffer `c` is `id` itself, or a view of it that shows a cell which the items change. */
  ghost predicate Sees<V>(buffers: Buffers<V>, c: Id, id: Id, items: seq<V>)
    requires id in buffers && buffers[id].Owned? && buffers[id].count + |items| <= |buffers[id].data|
  {
    || c == id
    || (c in buffers && buffers[c].View? && buffers[c].root == id
        && Changed(buffers[id].data, buffers[id].count, items, buffers[c].start, buffers[c].start + buffers[c].count))
  }

  lemma SeesIff<V>(buffers: Buffers<V>, pointers: Pointers, next: Id, c: Id, id: Id, items: seq<V>)
    requires HeapValid(buffers, pointers, next) && c in buffers && id in buffers && buffers[id].Owned?
    requires buffers[id].count + |items| <= |buffers[id].data| && items != []
    ensures Contents(buffers[id := Appended(buffers[id], items)], c) != Contents(buffers, c)
        <==> Sees(buffers, c, id, items)
  {
    AllReadable(buffers, pointers, next, c);
    var after := buffers[id := Appended(buffers[id], items)];
    if c == id {
      assert |Contents(after, c)| == |Contents(buffers, c)| + |items|;
    } else if buffers[c].View? && buffers[c].root == id {
      var lo, hi := buffers[c].start, buffers[c].start + buffers[c].count;
      assert Contents(buffers, c) == buffers[id].data[lo..hi] && Contents(after, c) == after[id].data[lo..hi];
      ChangedIff(buffers[id].data, buffers[id].count, items, lo, hi);
    } else {
      assert Contents(after, c) == Contents(buffers, c);
    }
  }

  class Memory<V> {
    // kPaddedSize: the header and the padding of a block.
    const paddedSize: nat
    var buffers: Buffers<V>
    var pointers: Pointers
    var next: Id
    // Bytes the pool has given and not got back.
    var used: nat
    ghost var obtained: map<Id, int>
    ghost var returned: map<Id, int>
    // The returns to the pool, in order: block and bytes.
    ghost var given: seq<(Id, int)>

    ghost predicate Valid()
      reads this
    {
      && HeapValid(buffers, pointers, next)
      && LedgerValid(buffers, paddedSize, next, used, obtained, returned)
      && OnceEach(given, returned)
    }

    constructor (paddedSize: nat)
      ensures Valid() && buffers == map[] && pointers == map[] && used == 0 && this.paddedSize == paddedSize
          && given == []
    {
      this.paddedSize := paddedSize;
      buffers, pointers, next, used := map[], map[], 0, 0;
      obtained, returned, given := map[], map[], [];
    }

    /** A new block from the pool, held by `v`. */
    method Create(v: int, pod: bool, unit: nat, data: seq<Option<V>>, count: nat, capacity: nat) returns (b: Id)
      requires Valid() && Variable(v) !in pointers
      requires OwnedValid(Owned(pod, unit, data, count, capacity, 1))
      modifies this
      ensures Valid()
      ensures b == old(next) && buffers == old(buffers)[b := Owned(pod, unit, data, count, capacity, 1)]
      ensures pointers == old(pointers)[Variable(v) := b]
      ensures used == old(used) + capacity + paddedSize && b !in old(obtained)
      ensures obtained == old(obtained)[b := capacity + paddedSize] && returned == old(returned) && given == old(given)
    {
      b := next;
      var buffer := Owned(pod, unit, data, count, capacity, 1);
      NewBuffer(buffers, pointers, next, v, buffer);
      NewBlock(buffers, paddedSize, next, used, obtained, returned, buffer);
      buffers := buffers[b := buffer];
      pointers := pointers[Variable(v) := b];
      next := next + 1;
      used := used + capacity + paddedSize;
      obtained := obtained[b := capacity + paddedSize];
    }

    method Decrement(v: int)
      requires Valid() && Variable(v) in pointers && buffers[pointers[Variable(v)]].refCount > 1
      modifies this`buffers, this`pointers
      ensures Valid() && OthersKept(old(buffers), old(pointers), buffers, pointers, v) && Variable(v) !in pointers
    {
      var b := pointers[Variable(v)];
      var shared := buffers[b].(refCount := buffers[b].refCount - 1);
      DropShared(buffers, pointers, next, v);
      SameBlock(buffers, paddedSize, next, used, obtained, returned, b, shared);
      buffers, pointers := buffers[b := shared], pointers - {Variable(v)};
    }

    /** The pool takes a block back; its bytes are no longer used. */
    method GiveBack(b: Id)
      requires LedgerValid(buffers, paddedSize, next, used, obtained, returned) && OnceEach(given, returned)
      requires b in buffers && buffers[b].Owned?
      modifies this`used, this`returned, this`given
      ensures LedgerValid(buffers - {b}, paddedSize, next, used, obtained, returned) && OnceEach(given, returned)
      ensures b !in old(returned) && given == old(given) + [(b, buffers[b].capacity + paddedSize)]
    {
      var bytes := buffers[b].capacity + paddedSize;
      ReturnBlock(buffers, paddedSize, next, used, obtained, returned, b);
      OnceMore(given, returned, b, bytes);
      used := used - bytes;
      returned, given := returned[b := bytes], given + [(b, bytes)];
    }

    /** `freeToPool`. */
    method FreeToPool(v: int)
      requires Valid() && Variable(v) in pointers
      requires buffers[pointers[Variable(v)]].refCount == 1 && buffers[pointers[Variable(v)]].Owned?
      modifies this`buffers, this`pointers, this`used, this`returned, this`given
      ensures Valid() && OthersKept(old(buffers), old(pointers), buffers, pointers, v) && Variable(v) !in pointers
      ensures var b := old(pointers)[Variable(v)];
              b !in old(returned) && given == old(given) + [(b, old(buffers)[b].capacity + paddedSize)]
    {
      var b := pointers[Variable(v)];
      DropOwned(buffers, pointers, next, v);
      GiveBack(b);
      buffers, pointers := buffers - {b}, pointers - {Variable(v)};
    }

    /** A view goes, and `v` holds what its releaser held. */
    method DestroyView(v: int)
      requires Valid() && Variable(v) in pointers
      requires buffers[pointers[Variable(v)]].refCount == 1 && buffers[pointers[Variable(v)]].View?
      modifies this`buffers, this`pointers
      ensures Valid() && OthersKept(old(buffers), old(pointers), buffers, pointers, v)
      ensures Variable(v) in pointers && pointers[Variable(v)] < old(pointers)[Variable(v)]
    {
      var b := pointers[Variable(v)];
      DropView(buffers, pointers, next, v);
      NoBlock(buffers, paddedSize, next, used, obtained, returned, b);
      buffers, pointers := buffers - {b}, (pointers - {Releaser(b)})[Variable(v) := buffers[b].parent];
    }

    /**
     `BufferPtr` `v` is released.  A view that is destroyed releases its parent in turn, by the pointer its
     releaser held.
     */
    method Release(v: int)
      requires Valid() && Variable(v) in pointers
      modifies this`buffers, this`pointers, this`used, this`returned, this`given
      ensures Valid() && OthersKept(old(buffers), old(pointers), buffers, pointers, v) && Variable(v) !in pointers
      ensures old(given) <= given
      decreases pointers[Variable(v)]
    {
      var b := pointers[Variable(v)];
      var buffer := buffers[b];
      assert buffer.refCount == |Holders(pointers, b)| > 0;
      if buffer.refCount > 1 {
        Decrement(v);
      } else if buffer.Owned? {
        var _ := ReleaseResources(buffer);
        FreeToPool(v);
      } else {
        DestroyView(v);
        Release(v);
      }
    }

    /** `to = from`. */
    method Share(to: int, from: int)
      requires Valid() && Variable(to) !in pointers && Variable(from) in pointers
      modifies this`buffers, this`pointers
      ensures Valid() && pointers == old(pointers)[Variable(to) := old(pointers)[Variable(from)]]
      ensures var b := old(pointers)[Variable(from)];
              buffers == old(buffers)[b := old(buffers)[b].(refCount := old(buffers)[b].refCount + 1)]
    {
      var b := pointers[Variable(from)];
      var shared := buffers[b].(refCount := buffers[b].refCount + 1);
      AddShared(buffers, pointers, next, to, b);
      SameBlock(buffers, paddedSize, next, used, obtained, returned, b, shared);
      buffers, pointers := buffers[b := shared], pointers[Variable(to) := b];
    }

    /** The cells and the size of a buffer change in place, for all its holders. */
    method SetCells(b: Id, data: seq<Option<V>>, count: nat)
      requires Valid() && b in buffers && buffers[b].Owned? && |data| == |buffers[b].data|
      requires OwnedValid(buffers[b].(data := data, count := count))
      modifies this`buffers
      ensures Valid() && buffers == old(buffers)[b := old(buffers)[b].(data := data, count := count)]
    {
      var changed := buffers[b].(data := data, count := count);
      CellsChanged(buffers, pointers, next, b, data, count);
      SameBlock(buffers, paddedSize, next, used, obtained, returned, b, changed);
      buffers := buffers[b := changed];
    }

    /** `to = std::move(from)`. */
    method Move(to: int, from: int)
      requires Valid() && to != from && Variable(to) in pointers && Variable(from) in pointers
      modifies this`buffers, this`pointers, this`used, this`returned, this`given
      ensures Valid() && Variable(from) !in pointers && Variable(to) in pointers && old(given) <= given
      ensures pointers[Variable(to)] == old(pointers)[Variable(from)]
      ensures forall w :: w != to && w != from ==> (Variable(w) in pointers <==> Variable(w) in old(pointers))
      ensures forall w :: w != to && w != from && Variable(w) in pointers ==>
          pointers[Variable(w)] == old(pointers)[Variable(w)]
      ensures forall b :: b in buffers ==> b in old(buffers) && SameCells(buffers[b], old(buffers)[b])
    {
      Release(to);
      Renamed(buffers, pointers, next, to, from);
      pointers := (pointers - {Variable(from)})[Variable(to) := pointers[Variable(from)]];
    }

    method MakeView(to: int, b: Id, start: nat, count: nat)
      requires Valid() && Variable(to) !in pointers && b in buffers && start + count <= buffers[b].count
      modifies this`buffers, this`pointers, this`next
      ensures Valid() && next == old(next) + 1
      ensures buffers == old(buffers)[b := old(buffers)[b].(refCount := old(buffers)[b].refCount + 1)]
                                     [old(next) := ViewOf(old(buffers), b, start, count)]
      ensures pointers == old(pointers)[Releaser(old(next)) := b][Variable(to) := old(next)]
      ensures start + count <= |old(Contents(buffers, b))|
          && Shown(to) == old(Contents(buffers, b))[start..start + count]
    {
      var view, shared := ViewOf(buffers, b, start, count), buffers[b].(refCount := buffers[b].refCount + 1);
      NewView(buffers, pointers, next, to, b, start, count);
      NewViewBlocks(buffers, paddedSize, next, used, obtained, returned, b, shared, view);
      ViewShows(buffers, pointers, next, b, start, count, buffers[b := shared][next := view]);
      buffers, pointers := buffers[b := shared][next := view], pointers[Releaser(next) := b][Variable(to) := next];
      next := next + 1;
    }

    /** `sliceBufferZeroCopy`, with the bounds in cells: an element is `width` cells. */
    method Slice(to: int, from: int, offset: nat, length: nat, width: nat) returns (ok: bool)
      requires Valid() && Variable(to) !in pointers && Variable(from) in pointers
      modifies this`buffers, this`pointers, this`next
      ensures Valid()
      ensures ok == (offset * width + length * width <= old(buffers)[old(pointers)[Variable(from)]].count)
      ensures !ok ==> buffers == old(buffers) && pointers == old(pointers)
      ensures ok ==>
        var b := old(pointers)[Variable(from)];
        && buffers == old(buffers)[b := old(buffers)[b].(refCount := old(buffers)[b].refCount + 1)]
                                  [old(next) := ViewOf(old(buffers), b, offset * width, length * width)]
        && pointers == old(pointers)[Releaser(old(next)) := b][Variable(to) := old(next)]
        && offset * width + length * width <= |old(Shown(from))|
        && Shown(to) == old(Shown(from))[offset * width..offset * width + length * width]
    {
      var b := pointers[Variable(from)];
      var start, count := offset * width, length * width;
      if start > buffers[b].count || count > buffers[b].count - start {
        return false;
      }
      MakeView(to, b, start, count);
      return true;
    }

    function Shown(v: int): seq<Option<V>>
      requires Variable(v) in pointers
      reads this
    {
      Contents(buffers, pointers[Variable(v)])
    }

    /** `AlignedBuffer::allocate`. */
    method Allocate(v: int, pod: bool, unit: nat, numElements: nat, width: nat, init: Option<seq<V>>)
      requires Valid() && Variable(v) !in pointers && Layout(pod, unit, width, init)
      modifies this
      ensures Valid() && pointers == old(pointers)[Variable(v) := old(next)]
      ensures Resized([], Shown(v), numElements * width, init) && given == old(given)
      ensures var b := buffers[pointers[Variable(v)]]; b.Owned? && b.pod == pod && b.unit == unit
      ensures buffers.Keys == old(buffers).Keys + {old(next)} && buffers[old(next)].Owned?
          && buffers[old(next)].refCount == 1
      ensures forall b :: b in old(buffers) ==> buffers[b] == old(buffers)[b]
    {
      var count := numElements * width;
      var capacity := PreferredSize(count * unit + paddedSize) - paddedSize;
      CellsFit(count, unit, capacity);
      var data := seq(Cells(capacity, unit), _ => None);
      data := FillNewMemory(data, 0, count, init);
      var b := Create(v, pod, unit, data, count, capacity);
      assert Readable(buffers, b);
    }

    /** Variables other than `v` hold and show what they did. */
    twostate predicate OthersUntouched(v: int)
      reads this
    {
      && (forall w :: w != v ==> (Variable(w) in pointers <==> Variable(w) in old(pointers)))
      && (forall w :: w != v && Variable(w) in pointers ==>
            pointers[Variable(w)] == old(pointers)[Variable(w)] && Shown(w) == old(Shown(w)))
    }

    /** A block with `data` is made for the local variable and moved to `v`. */
    method Replace(v: int, local: int, data: seq<Option<V>>, count: nat, capacity: nat)
      requires Valid() && Variable(v) in pointers && Variable(local) !in pointers
      requires var b := buffers[pointers[Variable(v)]];
               b.Owned? && OwnedValid(Owned(b.pod, b.unit, data, count, capacity, 1))
      modifies this
      ensures Valid() && Variable(v) in pointers && Variable(local) !in pointers && old(given) <= given
      ensures var b := old(buffers)[old(pointers)[Variable(v)]];
              && pointers[Variable(v)] == old(next) && old(next) in buffers
              && SameCells(buffers[old(next)], Owned(b.pod, b.unit, data, count, capacity, 0))
      ensures buffers[old(next)].refCount == 1
      ensures forall w :: w != v ==> (Variable(w) in pointers <==> Variable(w) in old(pointers))
      ensures forall w :: w != v && Variable(w) in pointers ==> pointers[Variable(w)] == old(pointers)[Variable(w)]
      ensures KeptBut(old(buffers), buffers, old(next))
    {
      var before := buffers[pointers[Variable(v)]];
      var b := Create(local, before.pod, before.unit, data, count, capacity);
      label Created:
      Move(v, local);
      assert SameCells(buffers[b], old@Created(buffers)[b]);
      forall view | view in buffers && buffers[view].View? ensures buffers[view].parent != b {
        assert SameCells(buffers[view], old@Created(buffers)[view]);
        assert ViewValid(old(buffers), old(pointers), view);
      }
      HeldOnce(buffers, pointers, next, v);
    }

    method GrowInPlace(v: int, count: nat, width: nat, init: Option<seq<V>>)
      requires Valid() && Variable(v) in pointers
      requires var b := buffers[pointers[Variable(v)]];
               && b.Owned? && b.refCount == 1 && Layout(b.pod, b.unit, width, init)
               && b.count < count && count * b.unit < b.capacity
      modifies this`buffers
      ensures Valid() && Resized(old(Shown(v)), Shown(v), count, init)
      ensures buffers.Keys == old(buffers).Keys && KeptBut(old(buffers), buffers, pointers[Variable(v)])
      ensures var b, b' := old(buffers)[pointers[Variable(v)]], buffers[pointers[Variable(v)]];
              b'.Owned? && b'.pod == b.pod && b'.refCount == 1 && b'.count == count
    {
      var b := pointers[Variable(v)];
      var before := buffers[b];
      assert OwnedValid(before);
      CellsFit(count, before.unit, before.capacity);
      var data := FillNewMemory(before.data, before.count, count, init);
      SetCells(b, data, count);
      assert Readable(buffers, b);
    }

    method MoveToNewBlock(v: int, local: int, count: nat, width: nat, init: Option<seq<V>>)
      requires Valid() && Variable(v) in pointers && Variable(local) !in pointers
      requires var b := buffers[pointers[Variable(v)]]; b.Owned? && Layout(b.pod, b.unit, width, init)
      modifies this
      ensures Valid() && Variable(v) in pointers && Variable(local) !in pointers && old(given) <= given
      ensures Resized(old(Shown(v)), Shown(v), count, init)
      ensures forall w :: w != v ==> (Variable(w) in pointers <==> Variable(w) in old(pointers))
      ensures forall w :: w != v && Variable(w) in pointers ==> pointers[Variable(w)] == old(pointers)[Variable(w)]
      ensures KeptBut(old(buffers), buffers, pointers[Variable(v)])
      ensures var b, b' := old(buffers)[old(pointers)[Variable(v)]], buffers[pointers[Variable(v)]];
              b'.Owned? && b'.pod == b.pod && b'.refCount == 1 && b'.count == count
    {
      var b := pointers[Variable(v)];
      var before := buffers[b];
      assert b in buffers && OwnedValid(before);
      var capacity := PreferredSize(count * before.unit + paddedSize) - paddedSize;
      CellsFit(count, before.unit, capacity);
      var data := ReallocatedCells(before, count, Cells(capacity, before.unit), width, init);
      assert Readable(buffers, pointers[Variable(v)]);
      Replace(v, local, data, count, capacity);
      assert Readable(buffers, pointers[Variable(v)]);
    }

    /**
     `AlignedBuffer::reallocate`: on every path the buffer of `v` is resized like a list, and other holders see
     nothing of it.
     */
    method Reallocate(v: int, local: int, numElements: nat, width: nat, init: Option<seq<V>>)
      requires Valid() && Variable(v) in pointers && Variable(local) !in pointers
      requires var b := buffers[pointers[Variable(v)]];
               b.Owned? && Layout(b.pod, b.unit, width, init) && (init.Some? ==> b.count % width == 0)
      modifies this
      ensures Valid() && Variable(v) in pointers && Variable(local) !in pointers && old(given) <= given
      ensures Resized(old(Shown(v)), Shown(v), numElements * width, init)
      ensures OthersUntouched(v)
      ensures var b, b' := old(buffers)[old(pointers)[Variable(v)]], buffers[pointers[Variable(v)]];
              b'.Owned? && b'.pod == b.pod && b'.refCount == 1 && b'.count == numElements * width
    {
      var count, b := numElements * width, buffers[pointers[Variable(v)]];
      if count > b.count && count * b.unit < b.capacity && b.refCount == 1 {
        GrowInPlace(v, count, width, init);
      } else {
        MoveToNewBlock(v, local, count, width, init);
      }
      forall w | w != v && Variable(w) in pointers ensures Shown(w) == old(Shown(w)) {
        OthersShow(old(buffers), buffers, pointers, next, v, w);
      }
    }

    /** `setSize`: refused for a view and beyond the capacity. */
    method SetSize(v: int, count: nat, value: V) returns (ok: bool)
      requires Valid() && Variable(v) in pointers
      modifies this`buffers
      ensures Valid()
      ensures var b := old(buffers)[pointers[Variable(v)]]; ok == (b.Owned? && count * b.unit <= b.capacity)
      ensures !ok ==> buffers == old(buffers)
      ensures ok ==>
        var b := old(buffers)[pointers[Variable(v)]];
        && pointers[Variable(v)] in buffers && buffers[pointers[Variable(v)]].Owned?
        && buffers ==
           old(buffers)[pointers[Variable(v)] := b.(data := buffers[pointers[Variable(v)]].data, count := count)]
        && (if b.pod then buffers[pointers[Variable(v)]].data == b.data
            else Resized(old(Shown(v)), Shown(v), count, Some([value])))
    {
      var id := pointers[Variable(v)];
      var b := buffers[id];
      if b.View? || count * b.unit > b.capacity {
        return false;
      }
      assert id in buffers && OwnedValid(b);
      CellsFit(count, b.unit, b.capacity);
      var data := ResizeCells(b.pod, b.data, b.count, count, value);
      SetCells(id, data, count);
      assert Readable(buffers, id);
      return true;
    }

    /** The last steps of `appendTo`: the size is set and the items are written after the old end, in place. */
    method AppendInPlace(v: int, size: nat, items: seq<V>)
      requires Valid() && Variable(v) in pointers
      requires var b := buffers[pointers[Variable(v)]];
               b.Owned? && b.pod && size <= b.count && size + |items| <= b.capacity
      modifies this`buffers
      ensures Valid() && Shown(v) == old(Shown(v))[..size] + Filled(items)
      ensures var b := old(buffers)[pointers[Variable(v)]];
              && pointers[Variable(v)] in buffers && buffers[pointers[Variable(v)]].Owned?
              && buffers == old(buffers)[pointers[Variable(v)] :=
                                           b.(data := buffers[pointers[Variable(v)]].data, count := size + |items|)]
              && (size == b.count ==>
                    size + |items| <= |b.data| && buffers == old(buffers)[pointers[Variable(v)] := Appended(b, items)])
    {
      var id := pointers[Variable(v)];
      var b := buffers[id];
      assert id in buffers && OwnedValid(b) && Readable(buffers, id);
      var data := WriteCells(b.data, size, items);
      SetCells(id, data, size + |items|);
      assert Readable(buffers, id);
    }

    /** There is no room, nothing to append, or nobody else who would see it. */
    ghost predicate AppendSpares(v: int, items: seq<V>)
      requires Valid() && Variable(v) in pointers && buffers[pointers[Variable(v)]].Owned?
          && buffers[pointers[Variable(v)]].pod
      reads this
    {
      var id := pointers[Variable(v)];
      var b := buffers[id];
      || b.count + |items| > b.capacity
      || items == []
      || forall w :: w != v && Variable(w) in pointers ==>
           b.count + |items| <= |b.data| && !Sees(buffers, pointers[Variable(w)], id, items)
    }

    /**
     `AlignedBuffer::appendTo`.  A buffer that is full moves to a block of at least twice its capacity; a buffer with
     room is written in place, whoever else holds it: `AppendSpares` says exactly when others do not notice.
     */
    method AppendTo(v: int, local: int, items: seq<V>)
      requires Valid() && Variable(v) in pointers && Variable(local) !in pointers
      requires buffers[pointers[Variable(v)]].Owned? && buffers[pointers[Variable(v)]].pod
      modifies this
      ensures Valid() && Variable(v) in pointers && Variable(local) !in pointers && old(given) <= given
      ensures Shown(v) == old(Shown(v)) + Filled(items)
      ensures buffers[pointers[Variable(v)]].Owned? && buffers[pointers[Variable(v)]].pod
      ensures OthersUntouched(v) <==> old(AppendSpares(v, items))
      ensures var b := old(buffers)[old(pointers)[Variable(v)]];
              b.count + |items| <= b.capacity ==>
                && b.count + |items| <= |b.data| && pointers == old(pointers)
                && buffers == old(buffers)[old(pointers)[Variable(v)] := Appended(b, items)]
      ensures var b := old(buffers)[old(pointers)[Variable(v)]];
              b.refCount == 1 || b.count + |items| > b.capacity ==>
                OthersUntouched(v) && buffers[pointers[Variable(v)]].refCount == 1
    {
      var id := pointers[Variable(v)];
      var b := buffers[id];
      assert id in buffers && OwnedValid(b) && Readable(buffers, id);
      if b.count + |items| > b.capacity {
        AppendElsewhere(v, local, items);
      } else {
        AppendWithRoom(v, items);
      }
    }

    /** The first branch of `appendTo`. */
    method AppendElsewhere(v: int, local: int, items: seq<V>)
      requires Valid() && Variable(v) in pointers && Variable(local) !in pointers
      requires var b := buffers[pointers[Variable(v)]]; b.Owned? && b.pod && b.count + |items| > b.capacity
      modifies this
      ensures Valid() && Variable(v) in pointers && Variable(local) !in pointers && old(given) <= given
      ensures Shown(v) == old(Shown(v)) + Filled(items) && OthersUntouched(v)
      ensures var b := buffers[pointers[Variable(v)]]; b.Owned? && b.pod && b.refCount == 1
    {
      var id := pointers[Variable(v)];
      var b := buffers[id];
      assert id in buffers && OwnedValid(b) && Readable(buffers, id);
      var size, capacity := b.count, b.capacity;
      Reallocate(v, local, if 2 * capacity > size + |items| then 2 * capacity else size + |items|, 1, None);
      assert pointers[Variable(v)] in buffers && OwnedValid(buffers[pointers[Variable(v)]]);
      assert Shown(v)[..size] == old(Shown(v));
      label Grown:
      AppendInPlace(v, size, items);
      forall w | w != v && Variable(w) in pointers ensures Shown(w) == old(Shown(w)) {
        OthersShow(old@Grown(buffers), buffers, pointers, next, v, w);
      }
    }

    /** The second branch of `appendTo`, and who notices it. */
    method AppendWithRoom(v: int, items: seq<V>)
      requires Valid() && Variable(v) in pointers
      requires var b := buffers[pointers[Variable(v)]]; b.Owned? && b.pod && b.count + |items| <= b.capacity
      modifies this`buffers
      ensures Valid() && Shown(v) == old(Shown(v)) + Filled(items)
      ensures var b := old(buffers)[pointers[Variable(v)]];
              && b.count + |items| <= |b.data|
              && buffers == old(buffers)[pointers[Variable(v)] := Appended(b, items)]
      ensures OthersUntouched(v) <==> old(AppendSpares(v, items))
      ensures old(buffers)[pointers[Variable(v)]].refCount == 1 ==> OthersUntouched(v)
    {
      var id := pointers[Variable(v)];
      var b := buffers[id];
      assert id in buffers && OwnedValid(b) && Readable(buffers, id);
      AppendInPlace(v, b.count, items);
      assert old(Shown(v))[..b.count] == old(Shown(v));
      if items == [] {
        assert b.data[..b.count] + [] + b.data[b.count..] == b.data;
        assert Appended(b, items) == b && buffers == old(buffers);
      } else {
        forall w | w != v && Variable(w) in pointers
          ensures Shown(w) != old(Shown(w)) <==> Sees(old(buffers), pointers[Variable(w)], id, items)
        {
          SeesIff(old(buffers), pointers, next, pointers[Variable(w)], id, items);
        }
        if b.refCount == 1 {
          forall w | w != v && Variable(w) in pointers ensures Shown(w) == old(Shown(w)) {
            OthersShow(old(buffers), buffers, pointers, next, v, w);
          }
        }
      }
    }

    /** Appending to a buffer held once concatenates. */
    method AppendAll(v: int, local: int, batches: seq<seq<V>>)
      requires Valid() && Variable(v) in pointers && Variable(local) !in pointers
      requires var b := buffers[pointers[Variable(v)]]; b.Owned? && b.pod && b.refCount == 1
      modifies this
      ensures Valid() && Variable(v) in pointers && OthersUntouched(v) && old(given) <= given
      ensures Shown(v) == old(Shown(v)) + Filled(Concatenated(batches, |batches|))
    {
      for i := 0 to |batches|
        invariant Valid() && Variable(v) in pointers && Variable(local) !in pointers && OthersUntouched(v)
            && old(given) <= given
        invariant var b := buffers[pointers[Variable(v)]]; b.Owned? && b.pod && b.refCount == 1
        invariant Shown(v) == old(Shown(v)) + Filled(Concatenated(batches, i))
      {
        OneMore(old(Shown(v)), batches, i);
        AppendTo(v, local, batches[i]);
      }
    }

    /** What the source demands of a caller, apart from the checks it makes itself. */
    predicate Legal(e: Event<V>)
      requires Valid()
      reads this
    {
      match e
      case Allocates(v, pod, unit, _, width, init) => Variable(v) !in pointers && Layout(pod, unit, width, init)
      case Shares(to, from) => Variable(to) !in pointers && Variable(from) in pointers
      case Releases(v) => Variable(v) in pointers
      case Reallocates(v, _, width, init) =>
        && Variable(v) in pointers
        && var b := buffers[pointers[Variable(v)]];
           b.Owned? && Layout(b.pod, b.unit, width, init) && (init.Some? ==> b.count % width == 0)
      case Appends(v, _) =>
        Variable(v) in pointers && buffers[pointers[Variable(v)]].Owned? && buffers[pointers[Variable(v)]].pod
      case Slices(to, from, _, _, _) => Variable(to) !in pointers && Variable(from) in pointers
      case SetsSize(v, _, _) => Variable(v) in pointers
    }

    method Perform(e: Event<V>)
      requires Valid() && Variable(LOCAL) !in pointers && Legal(e)
      modifies this
      ensures Valid() && Variable(LOCAL) !in pointers && old(given) <= given
    {
      match e
      case Allocates(v, pod, unit, numElements, width, init) => Allocate(v, pod, unit, numElements, width, init);
      case Shares(to, from) => Share(to, from);
      case Releases(v) => Release(v);
      case Reallocates(v, numElements, width, init) => Reallocate(v, LOCAL, numElements, width, init);
      case Appends(v, items) => AppendTo(v, LOCAL, items);
      case Slices(to, from, offset, length, width) => var _ := Slice(to, from, offset, length, width);
      case SetsSize(v, count, value) => var _ := SetSize(v, count, value);
    }

    /**
     Any run of legal steps: counts, views, live objects and the pool's books stay right, and no block is given back
     twice, or with other bytes than it was obtained with.
     */
    method Run(events: seq<Event<V>>)
      requires Valid() && Variable(LOCAL) !in pointers
      modifies this
      ensures Valid() && Variable(LOCAL) !in pointers && old(given) <= given
      ensures forall i, j :: 0 <= i < j < |given| ==> given[i].0 != given[j].0
      ensures forall i :: 0 <= i < |given| ==> given[i].0 in obtained && given[i].1 == obtained[given[i].0]
    {
      for i := 0 to |events|
        invariant Valid() && Variable(LOCAL) !in pointers && old(given) <= given
      {
        if Legal(events[i]) {
          Perform(events[i]);
        }
      }
      GivenWhole(buffers, paddedSize, next, used, obtained, returned, given);
    }

    /** After any run, once the variables are gone every block is back in the pool, with the bytes it came with. */
    method ReleaseAll()
      requires Valid()
      modifies this
      ensures Valid() && buffers == map[] && used == 0 && old(given) <= given
      ensures returned == obtained && |given| == |obtained|
    {
      var variables := set p | p in pointers && p.Variable?;
      while variables != {}
        invariant Valid() && old(given) <= given && variables == set p | p in pointers && p.Variable?
      {
        var p :| p in variables;
        label Before:
        Release(p.v);
        assert forall w :: Variable(w) in pointers <==> Variable(w) in old@Before(pointers) && w != p.v;
        variables := variables - {p};
      }
      assert forall v :: Variable(v) in pointers ==> Variable(v) in variables;
      AllReturned(buffers, pointers, next, paddedSize, used, obtained, returned);
    }
  }

  /** A buffer that is allocated and emptied has room. */
  method EmptyWithRoom<V>(paddedSize: nat, x: V) returns (memory: Memory<V>)
    ensures fresh(memory) && memory.Valid() && Variable(0) in memory.pointers && memory.Shown(0) == []
    ensures forall w :: w != 0 ==> Variable(w) !in memory.pointers
    ensures var b := memory.buffers[memory.pointers[Variable(0)]]; b.Owned? && b.pod && b.count == 0 && 1 <= b.capacity
  {
    memory := new Memory<V>(paddedSize);
    memory.Allocate(0, true, 1, 1, 1, Some([x]));
    var id := memory.pointers[Variable(0)];
    assert |memory.Shown(0)| == 1 && OwnedValid(memory.buffers[id]) && Readable(memory.buffers, id);
    var ok := memory.SetSize(0, 0, x);
  }

  /** What another holder of a buffer sees of an append to it: an empty buffer with room is shared, and grows. */
  method AppendReachesOthers<V>(paddedSize: nat, x: V) returns (before: seq<Option<V>>, after: seq<Option<V>>)
    ensures before == [] && after == [Some(x)]
  {
    var memory := EmptyWithRoom(paddedSize, x);
    memory.Share(1, 0);
    before := memory.Shown(1);
    memory.AppendTo(0, LOCAL, [x]);
    after := memory.Shown(1);
  }
}
