/**
 Reference-counted buffers (velox/buffer/Buffer.h and Buffer.cpp): the live buffers, the pointers that hold them,
 what every state keeps, and that each step keeps it.  The operations are in BufferMemory.

 A buffer of trivially copyable elements is a sequence of bytes, and a buffer of other elements a sequence of
 objects: `unit` is the number of bytes in a cell, 1 or sizeof(T).  A cell that holds nothing yet is `None`.
 */
module Buffers {
  import opened Options

  /** Buffers are numbered in the order they are made. */
  type Id = int

  datatype Buffer<V> =
    | Owned(pod: bool, unit: nat, data: seq<Option<V>>, count: nat, capacity: nat, refCount: nat)
    // A BufferView over cells `start` to `start + count` of `root`; its releaser points to `parent`.
    | View(parent: Id, root: Id, start: nat, count: nat, refCount: nat)

  /** A BufferPtr: a variable of the program, or the one inside the releaser of a view. */
  datatype Pointer = Variable(v: int) | Releaser(view: Id)

  type Buffers<V> = map<Id, Buffer<V>>
  type Pointers = map<Pointer, Id>

  // ----- sizes -----

  function PowerBelow(power: nat, size: nat): (p: nat)
    requires 0 < power <= size
    ensures p <= size < 2 * p
    decreases size - power
  {
    if 2 * power <= size then PowerBelow(2 * power, size) else power
  }

  /** `MemoryPool::preferredSize`: the next power of two, or one and a half times the one before if that is enough. */
  function PreferredSize(size: nat): (r: nat)
    ensures size <= r && 8 <= r && (8 <= size ==> r < 2 * size)
  {
    if size < 8 then 8
    else
      var lower := PowerBelow(1, size);
      if lower == size then size
      else if lower + lower / 2 >= size then lower + lower / 2
      else 2 * lower
  }

  /** The cells that fit in `capacity` bytes. */
  function Cells(capacity: nat, unit: nat): nat
    requires unit > 0
  {
    capacity / unit
  }

  lemma Products(a: nat, b: nat, unit: nat)
    ensures a >= b ==> a * unit >= b * unit
  {
  }

  lemma CellsFit(n: nat, unit: nat, capacity: nat)
    requires unit > 0 && n * unit <= capacity
    ensures n <= Cells(capacity, unit)
  {
    Products(n, capacity / unit + 1, unit);
  }

  // ----- what a state keeps -----

  /** The pointers that hold a buffer. */
  ghost function Holders(pointers: Pointers, b: Id): set<Pointer> {
    set p | p in pointers && pointers[p] == b
  }

  ghost predicate PointersValid<V>(buffers: Buffers<V>, pointers: Pointers, next: Id) {
    && (forall p :: p in pointers ==> pointers[p] in buffers)
    && 0 <= next && (forall b :: b in buffers ==> 0 <= b < next)
    && (forall view :: Releaser(view) in pointers ==>
          view in buffers && buffers[view].View? && pointers[Releaser(view)] == buffers[view].parent)
  }

  /** Every live buffer is held, and its count says by how many. */
  ghost predicate CountsValid<V>(buffers: Buffers<V>, pointers: Pointers) {
    forall b :: b in buffers ==> buffers[b].refCount == |Holders(pointers, b)| > 0
  }

  /** A view holds its parent, which is older, and sees cells of an owned buffer that is still there. */
  ghost predicate ViewValid<V>(buffers: Buffers<V>, pointers: Pointers, b: Id)
    requires b in buffers && buffers[b].View?
  {
    var view := buffers[b];
    && Releaser(b) in pointers && pointers[Releaser(b)] == view.parent < b
    && view.root in buffers && buffers[view.root].Owned? && view.start + view.count <= |buffers[view.root].data|
    && view.parent in buffers
    && (if buffers[view.parent].Owned? then view.parent == view.root else buffers[view.parent].root == view.root)
  }

  ghost predicate ViewsValid<V>(buffers: Buffers<V>, pointers: Pointers) {
    forall b {:trigger ViewValid(buffers, pointers, b)} ::
      b in buffers && buffers[b].View? ==> ViewValid(buffers, pointers, b)
  }

  ghost predicate OwnedValid<V>(b: Buffer<V>)
    requires b.Owned?
  {
    && b.unit > 0 && (b.pod ==> b.unit == 1)
    && b.count * b.unit <= b.capacity
    && |b.data| == Cells(b.capacity, b.unit) >= b.count
    // Objects that need a destructor live in the first `count` cells and nowhere else.
    && (!b.pod ==> forall i :: 0 <= i < |b.data| ==> (b.data[i].Some? <==> i < b.count))
  }

  ghost predicate AllOwnedValid<V>(buffers: Buffers<V>) {
    forall b :: b in buffers && buffers[b].Owned? ==> OwnedValid(buffers[b])
  }

  /** The same buffer up to the number of its holders. */
  ghost predicate SameCells<V>(a: Buffer<V>, b: Buffer<V>) {
    a.(refCount := 0) == b.(refCount := 0)
  }

  /** What the pool has given for a buffer. */
  function Cost<V>(buffers: Buffers<V>, padded: nat, b: Id): nat {
    if b in buffers && buffers[b].Owned? then buffers[b].capacity + padded else 0
  }

  function Outstanding<V>(buffers: Buffers<V>, padded: nat, n: nat): nat {
    if n == 0 then 0 else Outstanding(buffers, padded, n - 1) + Cost(buffers, padded, n - 1)
  }

  /** Blocks are returned with the bytes they were obtained with, and those not returned are the live ones. */
  ghost predicate LedgerValid<V>(buffers: Buffers<V>, padded: nat, next: Id, used: nat,
                                 obtained: map<Id, int>, returned: map<Id, int>)
  {
    && 0 <= next && used == Outstanding(buffers, padded, next)
    && (forall b :: b in returned ==> b in obtained && returned[b] == obtained[b])
    && (forall b :: b in obtained ==> 0 <= b < next)
    && (forall b :: b in obtained && b !in returned <==> b in buffers && buffers[b].Owned?)
    && (forall b :: b in buffers && buffers[b].Owned? ==> obtained[b] == buffers[b].capacity + padded)
  }

  /** `given` lists the returned blocks, each of them once, with their bytes. */
  ghost predicate OnceEach(given: seq<(Id, int)>, returned: map<Id, int>) {
    && |given| == |returned|
    && (forall i :: 0 <= i < |given| ==> given[i].0 in returned && returned[given[i].0] == given[i].1)
    && (forall i, j :: 0 <= i < j < |given| ==> given[i].0 != given[j].0)
  }

  // ----- holders and sums -----

  lemma AddHolder(pointers: Pointers, p: Pointer, b: Id)
    requires p !in pointers
    ensures |Holders(pointers[p := b], b)| == |Holders(pointers, b)| + 1
    ensures forall c :: c != b ==> Holders(pointers[p := b], c) == Holders(pointers, c)
  {
    assert Holders(pointers[p := b], b) == Holders(pointers, b) + {p};
    forall c | c != b ensures Holders(pointers[p := b], c) == Holders(pointers, c) {
    }
  }

  lemma DropHolder(pointers: Pointers, p: Pointer)
    requires p in pointers
    ensures |Holders(pointers - {p}, pointers[p])| == |Holders(pointers, pointers[p])| - 1
    ensures forall c :: c != pointers[p] ==> Holders(pointers - {p}, c) == Holders(pointers, c)
  {
    assert Holders(pointers - {p}, pointers[p]) == Holders(pointers, pointers[p]) - {p};
    forall c | c != pointers[p] ensures Holders(pointers - {p}, c) == Holders(pointers, c) {
    }
  }

  lemma {:induction false} SameCosts<V>(before: Buffers<V>, after: Buffers<V>, padded: nat, n: nat)
    requires forall b :: 0 <= b < n ==> Cost(before, padded, b) == Cost(after, padded, b)
    ensures Outstanding(before, padded, n) == Outstanding(after, padded, n)
  {
    if n > 0 {
      SameCosts(before, after, padded, n - 1);
    }
  }

  lemma {:induction false} OneCost<V>(before: Buffers<V>, after: Buffers<V>, padded: nat, n: nat, changed: Id)
    requires 0 <= changed < n
    requires forall b :: 0 <= b < n && b != changed ==> Cost(before, padded, b) == Cost(after, padded, b)
    ensures Outstanding(after, padded, n)
         == Outstanding(before, padded, n) - Cost(before, padded, changed) + Cost(after, padded, changed)
  {
    if changed == n - 1 {
      SameCosts(before, after, padded, n - 1);
    } else {
      OneCost(before, after, padded, n - 1, changed);
    }
  }

  /** Nothing has changed for variables other than `v`, and buffers that are left have kept their cells. */
  ghost predicate OthersKept<V>(before: Buffers<V>, held: Pointers, after: Buffers<V>, pointers: Pointers, v: int) {
    && (forall w :: w != v ==> (Variable(w) in pointers <==> Variable(w) in held))
    && (forall w :: w != v && Variable(w) in pointers ==> pointers[Variable(w)] == held[Variable(w)])
    && (forall b :: b in after ==> b in before && SameCells(after[b], before[b]))
  }

  // ----- what a buffer shows -----

  /** The cells a buffer shows; the cells of a view are those of its root. */
  function Contents<V>(buffers: Buffers<V>, b: Id): seq<Option<V>> {
    if b !in buffers || !Readable(buffers, b) then []
    else if buffers[b].Owned? then buffers[b].data[..buffers[b].count]
    else buffers[buffers[b].root].data[buffers[b].start..buffers[b].start + buffers[b].count]
  }

  predicate Readable<V>(buffers: Buffers<V>, b: Id)
    requires b in buffers
  {
    if buffers[b].Owned? then buffers[b].count <= |buffers[b].data|
    else
      && buffers[b].root in buffers && buffers[buffers[b].root].Owned?
      && buffers[b].start + buffers[b].count <= |buffers[buffers[b].root].data|
  }

  lemma AllReadable<V>(buffers: Buffers<V>, pointers: Pointers, next: Id, b: Id)
    requires HeapValid(buffers, pointers, next) && b in buffers
    ensures Readable(buffers, b)
  {
    if buffers[b].View? {
      assert ViewValid(buffers, pointers, b);
    }
  }

  // ----- steps that keep it -----

  ghost predicate HeapValid<V>(buffers: Buffers<V>, pointers: Pointers, next: Id) {
    && PointersValid(buffers, pointers, next)
    && CountsValid(buffers, pointers)
    && ViewsValid(buffers, pointers)
    && AllOwnedValid(buffers)
  }

  lemma NewBufferCounts<V>(buffers: Buffers<V>, pointers: Pointers, next: Id, v: int, b: Buffer<V>)
    requires PointersValid(buffers, pointers, next) && CountsValid(buffers, pointers)
    requires Variable(v) !in pointers && b.refCount == 1
    ensures CountsValid(buffers[next := b], pointers[Variable(v) := next])
  {
    AddHolder(pointers, Variable(v), next);
    assert Holders(pointers, next) == {};
  }

  lemma NewBuffer<V>(buffers: Buffers<V>, pointers: Pointers, next: Id, v: int, b: Buffer<V>)
    requires HeapValid(buffers, pointers, next)
    requires Variable(v) !in pointers && b.Owned? && OwnedValid(b) && b.refCount == 1
    ensures HeapValid(buffers[next := b], pointers[Variable(v) := next], next + 1)
  {
    NewBufferCounts(buffers, pointers, next, v, b);
    var buffers', pointers' := buffers[next := b], pointers[Variable(v) := next];
    forall w | w in buffers' && buffers'[w].View? ensures ViewValid(buffers', pointers', w) {
      assert ViewValid(buffers, pointers, w);
    }
  }

  lemma NewBlock<V>(buffers: Buffers<V>, padded: nat, next: Id, used: nat,
                    obtained: map<Id, int>, returned: map<Id, int>, b: Buffer<V>)
    requires LedgerValid(buffers, padded, next, used, obtained, returned) && b.Owned? && next !in buffers
    ensures LedgerValid(buffers[next := b], padded, next + 1, used + b.capacity + padded,
                        obtained[next := b.capacity + padded], returned)
  {
    SameCosts(buffers, buffers[next := b], padded, next);
  }

  /** The same buffers, with other counts, or other contents in cells of their own. */
  ghost predicate SameShapes<V>(before: Buffers<V>, after: Buffers<V>) {
    && before.Keys == after.Keys
    && forall b :: b in before ==>
         if before[b].View? then SameCells(before[b], after[b])
         else after[b].Owned? && OwnedValid(after[b]) && |after[b].data| == |before[b].data|
              && after[b].capacity == before[b].capacity
  }

  ghost predicate SameReleasers(before: Pointers, after: Pointers) {
    && (forall view :: Releaser(view) in after <==> Releaser(view) in before)
    && (forall view :: Releaser(view) in after ==> after[Releaser(view)] == before[Releaser(view)])
  }

  lemma ShapesKept<V>(before: Buffers<V>, after: Buffers<V>, pointers: Pointers, pointers': Pointers)
    requires ViewsValid(before, pointers) && SameShapes(before, after) && SameReleasers(pointers, pointers')
    ensures ViewsValid(after, pointers') && AllOwnedValid(after)
  {
    forall b | b in after && after[b].View? ensures ViewValid(after, pointers', b) {
      assert ViewValid(before, pointers, b) && SameCells(before[b], after[b]);
      assert before[b].parent in after;
    }
  }

  lemma DropSharedCounts<V>(buffers: Buffers<V>, pointers: Pointers, v: int)
    requires CountsValid(buffers, pointers)
    requires Variable(v) in pointers && pointers[Variable(v)] in buffers && buffers[pointers[Variable(v)]].refCount > 1
    ensures var b := pointers[Variable(v)];
            CountsValid(buffers[b := buffers[b].(refCount := buffers[b].refCount - 1)], pointers - {Variable(v)})
  {
    DropHolder(pointers, Variable(v));
  }

  /** One holder fewer of a buffer that has others. */
  lemma DropShared<V>(buffers: Buffers<V>, pointers: Pointers, next: Id, v: int)
    requires HeapValid(buffers, pointers, next)
    requires Variable(v) in pointers && buffers[pointers[Variable(v)]].refCount > 1
    ensures var b := pointers[Variable(v)];
            var buffers' := buffers[b := buffers[b].(refCount := buffers[b].refCount - 1)];
            && HeapValid(buffers', pointers - {Variable(v)}, next)
            && OthersKept(buffers, pointers, buffers', pointers - {Variable(v)}, v)
  {
    var b := pointers[Variable(v)];
    DropSharedCounts(buffers, pointers, v);
    ShapesKept(buffers, buffers[b := buffers[b].(refCount := buffers[b].refCount - 1)], pointers,
               pointers - {Variable(v)});
  }

  /** A lone holder is the only pointer. */
  lemma OnlyHolder<V>(buffers: Buffers<V>, pointers: Pointers, p: Pointer)
    requires CountsValid(buffers, pointers) && p in pointers && pointers[p] in buffers
        && buffers[pointers[p]].refCount == 1
    ensures Holders(pointers, pointers[p]) == {p}
    ensures forall q :: q in pointers && pointers[q] == pointers[p] ==> q == p
  {
    var holders := Holders(pointers, pointers[p]);
    assert p in holders;
    assert |holders - {p}| == 0;
    assert holders == {p} + (holders - {p});
    forall q | q in pointers && pointers[q] == pointers[p] ensures q == p {
      assert q in holders;
    }
  }

  /** Where there is a view of a root, some view points to the root itself. */
  lemma {:induction false} RootHeld<V>(buffers: Buffers<V>, pointers: Pointers, view: Id)
    requires ViewsValid(buffers, pointers) && view in buffers && buffers[view].View?
    requires forall b :: b in buffers ==> 0 <= b
    ensures exists p :: p in pointers && p.Releaser? && pointers[p] == buffers[view].root
    decreases view
  {
    assert ViewValid(buffers, pointers, view);
    var parent := buffers[view].parent;
    if buffers[parent].View? {
      RootHeld(buffers, pointers, parent);
    } else {
      assert pointers[Releaser(view)] == buffers[view].root;
    }
  }

  /** The last holder of an owned buffer goes: nothing else points to the buffer or sees its cells. */
  lemma DropOwned<V>(buffers: Buffers<V>, pointers: Pointers, next: Id, v: int)
    requires HeapValid(buffers, pointers, next)
    requires Variable(v) in pointers && buffers[pointers[Variable(v)]].Owned?
        && buffers[pointers[Variable(v)]].refCount == 1
    ensures HeapValid(buffers - {pointers[Variable(v)]}, pointers - {Variable(v)}, next)
    ensures OthersKept(buffers, pointers, buffers - {pointers[Variable(v)]}, pointers - {Variable(v)}, v)
  {
    var b := pointers[Variable(v)];
    OnlyHolder(buffers, pointers, Variable(v));
    DropHolder(pointers, Variable(v));
    forall view | view in buffers && buffers[view].View?
      ensures ViewValid(buffers - {b}, pointers - {Variable(v)}, view)
    {
      RootHeld(buffers, pointers, view);
      assert ViewValid(buffers, pointers, view);
    }
  }

  lemma DropViewCounts<V>(buffers: Buffers<V>, pointers: Pointers, next: Id, v: int)
    requires HeapValid(buffers, pointers, next)
    requires Variable(v) in pointers && buffers[pointers[Variable(v)]].View?
        && buffers[pointers[Variable(v)]].refCount == 1
    ensures var b := pointers[Variable(v)];
            CountsValid(buffers - {b}, (pointers - {Releaser(b)})[Variable(v) := buffers[b].parent])
  {
    var b := pointers[Variable(v)];
    assert ViewValid(buffers, pointers, b);
    DropHolder(pointers, Variable(v));
    var without := pointers - {Variable(v)};
    DropHolder(without, Releaser(b));
    AddHolder(without - {Releaser(b)}, Variable(v), buffers[b].parent);
    assert (without - {Releaser(b)})[Variable(v) := buffers[b].parent]
        == (pointers - {Releaser(b)})[Variable(v) := buffers[b].parent];
  }

  /** The last holder of a view takes over the pointer of its releaser. */
  lemma DropView<V>(buffers: Buffers<V>, pointers: Pointers, next: Id, v: int)
    requires HeapValid(buffers, pointers, next)
    requires Variable(v) in pointers && buffers[pointers[Variable(v)]].View?
        && buffers[pointers[Variable(v)]].refCount == 1
    ensures var b := pointers[Variable(v)];
            var pointers' := (pointers - {Releaser(b)})[Variable(v) := buffers[b].parent];
            && HeapValid(buffers - {b}, pointers', next) && OthersKept(buffers, pointers, buffers - {b}, pointers', v)
            && buffers[b].parent < b
  {
    DropViewCounts(buffers, pointers, next, v);
    OnlyHolder(buffers, pointers, Variable(v));
    var b := pointers[Variable(v)];
    assert ViewValid(buffers, pointers, b);
    forall view | view in buffers - {b} && buffers[view].View?
      ensures ViewValid(buffers - {b}, (pointers - {Releaser(b)})[Variable(v) := buffers[b].parent], view)
    {
      assert ViewValid(buffers, pointers, view);
    }
  }

  /** One more holder of a buffer. */
  lemma AddShared<V>(buffers: Buffers<V>, pointers: Pointers, next: Id, v: int, b: Id)
    requires HeapValid(buffers, pointers, next) && Variable(v) !in pointers && b in buffers
    ensures HeapValid(buffers[b := buffers[b].(refCount := buffers[b].refCount + 1)], pointers[Variable(v) := b], next)
  {
    AddHolder(pointers, Variable(v), b);
    ShapesKept(buffers, buffers[b := buffers[b].(refCount := buffers[b].refCount + 1)], pointers,
               pointers[Variable(v) := b]);
  }

  /** A holder hands its buffer to another variable. */
  lemma Renamed<V>(buffers: Buffers<V>, pointers: Pointers, next: Id, to: int, from: int)
    requires HeapValid(buffers, pointers, next) && Variable(to) !in pointers && Variable(from) in pointers
    ensures HeapValid(buffers, (pointers - {Variable(from)})[Variable(to) := pointers[Variable(from)]], next)
  {
    DropHolder(pointers, Variable(from));
    AddHolder(pointers - {Variable(from)}, Variable(to), pointers[Variable(from)]);
    ShapesKept(buffers, buffers, pointers, (pointers - {Variable(from)})[Variable(to) := pointers[Variable(from)]]);
  }

  /** Cells of a buffer are written in place. */
  lemma CellsChanged<V>(buffers: Buffers<V>, pointers: Pointers, next: Id, b: Id, data: seq<Option<V>>, count: nat)
    requires HeapValid(buffers, pointers, next) && b in buffers && buffers[b].Owned? && |data| == |buffers[b].data|
    requires OwnedValid(buffers[b].(data := data, count := count))
    ensures HeapValid(buffers[b := buffers[b].(data := data, count := count)], pointers, next)
  {
    ShapesKept(buffers, buffers[b := buffers[b].(data := data, count := count)], pointers, pointers);
  }

  lemma NewViewCounts<V>(buffers: Buffers<V>, pointers: Pointers, next: Id, v: int, b: Id, view: Buffer<V>)
    requires HeapValid(buffers, pointers, next) && Variable(v) !in pointers && b in buffers && view.refCount == 1
    ensures CountsValid(buffers[b := buffers[b].(refCount := buffers[b].refCount + 1)][next := view],
                        pointers[Releaser(next) := b][Variable(v) := next])
  {
    assert Releaser(next) !in pointers;
    AddHolder(pointers, Releaser(next), b);
    AddHolder(pointers[Releaser(next) := b], Variable(v), next);
    assert Holders(pointers, next) == {};
  }

  /** A view of part of what `b` shows. */
  function ViewOf<V>(buffers: Buffers<V>, b: Id, start: nat, count: nat): Buffer<V>
    requires b in buffers
  {
    if buffers[b].Owned? then View(b, b, start, count, 1)
    else View(b, buffers[b].root, buffers[b].start + start, count, 1)
  }

  lemma NewView<V>(buffers: Buffers<V>, pointers: Pointers, next: Id, v: int, b: Id, start: nat, count: nat)
    requires HeapValid(buffers, pointers, next) && Variable(v) !in pointers && b in buffers
    requires start + count <= buffers[b].count
    ensures HeapValid(buffers[b := buffers[b].(refCount := buffers[b].refCount + 1)]
                             [next := ViewOf(buffers, b, start, count)],
                      pointers[Releaser(next) := b][Variable(v) := next], next + 1)
  {
    var view := ViewOf(buffers, b, start, count);
    NewViewCounts(buffers, pointers, next, v, b, view);
    var shared := buffers[b := buffers[b].(refCount := buffers[b].refCount + 1)];
    ShapesKept(buffers, shared, pointers, pointers);
    var buffers', pointers' := shared[next := view], pointers[Releaser(next) := b][Variable(v) := next];
    forall w | w in buffers' && buffers'[w].View? ensures ViewValid(buffers', pointers', w) {
      if w != next {
        assert ViewValid(shared, pointers, w);
      } else if buffers[b].View? {
        assert ViewValid(shared, pointers, b);
      }
    }
  }

  lemma ReturnBlock<V>(buffers: Buffers<V>, padded: nat, next: Id, used: nat, obtained: map<Id, int>,
                       returned: map<Id, int>, b: Id)
    requires LedgerValid(buffers, padded, next, used, obtained, returned) && b in buffers && buffers[b].Owned?
    ensures b !in returned && used >= buffers[b].capacity + padded
    ensures LedgerValid(buffers - {b}, padded, next, used - buffers[b].capacity - padded, obtained,
                        returned[b := buffers[b].capacity + padded])
  {
    assert b in obtained;
    OneCost(buffers, buffers - {b}, padded, next, b);
  }

  lemma OnceMore(given: seq<(Id, int)>, returned: map<Id, int>, b: Id, bytes: int)
    requires OnceEach(given, returned) && b !in returned
    ensures OnceEach(given + [(b, bytes)], returned[b := bytes])
  {
  }

  lemma GivenWhole<V>(buffers: Buffers<V>, padded: nat, next: Id, used: nat, obtained: map<Id, int>,
                      returned: map<Id, int>, given: seq<(Id, int)>)
    requires LedgerValid(buffers, padded, next, used, obtained, returned) && OnceEach(given, returned)
    ensures forall i :: 0 <= i < |given| ==> given[i].0 in obtained && given[i].1 == obtained[given[i].0]
  {
    forall i | 0 <= i < |given| ensures given[i].0 in obtained && given[i].1 == obtained[given[i].0] {
      var b := given[i].0;
      assert b in returned;
    }
  }

  lemma SameBlocks<V>(before: Buffers<V>, after: Buffers<V>, padded: nat, next: Id, used: nat,
                      obtained: map<Id, int>, returned: map<Id, int>)
    requires LedgerValid(before, padded, next, used, obtained, returned)
    requires forall b :: b in after && after[b].Owned? <==> b in before && before[b].Owned?
    requires forall b :: b in after && after[b].Owned? ==> after[b].capacity == before[b].capacity
    ensures LedgerValid(after, padded, next, used, obtained, returned)
  {
    SameCosts(before, after, padded, next);
  }

  lemma SameBlock<V>(buffers: Buffers<V>, padded: nat, next: Id, used: nat, obtained: map<Id, int>,
                     returned: map<Id, int>, b: Id, after: Buffer<V>)
    requires LedgerValid(buffers, padded, next, used, obtained, returned) && b in buffers
    requires after.Owned? == buffers[b].Owned? && (after.Owned? ==> after.capacity == buffers[b].capacity)
    ensures LedgerValid(buffers[b := after], padded, next, used, obtained, returned)
  {
    SameBlocks(buffers, buffers[b := after], padded, next, used, obtained, returned);
  }

  lemma NoBlock<V>(buffers: Buffers<V>, padded: nat, next: Id, used: nat, obtained: map<Id, int>,
                   returned: map<Id, int>, b: Id)
    requires LedgerValid(buffers, padded, next, used, obtained, returned) && b in buffers && buffers[b].View?
    ensures LedgerValid(buffers - {b}, padded, next, used, obtained, returned)
  {
    SameBlocks(buffers, buffers - {b}, padded, next, used, obtained, returned);
  }

  lemma NewViewBlocks<V>(buffers: Buffers<V>, padded: nat, next: Id, used: nat, obtained: map<Id, int>,
                         returned: map<Id, int>, b: Id, shared: Buffer<V>, view: Buffer<V>)
    requires LedgerValid(buffers, padded, next, used, obtained, returned) && view.View? && next !in buffers
    requires b in buffers && shared.Owned? == buffers[b].Owned?
        && (shared.Owned? ==> shared.capacity == buffers[b].capacity)
    ensures LedgerValid(buffers[b := shared][next := view], padded, next + 1, used, obtained, returned)
  {
    SameBlocks(buffers, buffers[b := shared][next := view], padded, next, used, obtained, returned);
  }

  /** A view shows its part of what its parent shows. */
  lemma ViewShows<V>(buffers: Buffers<V>, pointers: Pointers, next: Id, b: Id, start: nat, count: nat,
                     after: Buffers<V>)
    requires HeapValid(buffers, pointers, next) && b in buffers && start + count <= buffers[b].count && next !in buffers
    requires after ==
      buffers[b := buffers[b].(refCount := buffers[b].refCount + 1)][next := ViewOf(buffers, b, start, count)]
    ensures start + count <= |Contents(buffers, b)|
        && Contents(after, next) == Contents(buffers, b)[start..start + count]
  {
    AllReadable(buffers, pointers, next, b);
    PartShows(buffers, next, b, start, count, after);
  }

  lemma PartShows<V>(buffers: Buffers<V>, next: Id, b: Id, start: nat, count: nat, after: Buffers<V>)
    requires b in buffers && Readable(buffers, b) && start + count <= buffers[b].count && next !in buffers
    requires after ==
      buffers[b := buffers[b].(refCount := buffers[b].refCount + 1)][next := ViewOf(buffers, b, start, count)]
    ensures start + count <= |Contents(buffers, b)|
        && Contents(after, next) == Contents(buffers, b)[start..start + count]
  {
    var root := after[next].root;
    assert after[root].Owned? && after[root].data == buffers[root].data;
    if buffers[b].View? {
      PartOfPart(buffers[root].data, buffers[b].start, buffers[b].count, start, count);
    } else {
      PartOfPart(buffers[b].data, 0, buffers[b].count, start, count);
    }
  }

  lemma PartOfPart<T>(s: seq<T>, from: nat, size: nat, start: nat, count: nat)
    requires from + size <= |s| && start + count <= size
    ensures s[from..from + size][start..start + count] == s[from + start..from + start + count]
  {
    var part, direct := s[from..from + size], s[from + start..from + start + count];
    forall i | 0 <= i < count ensures part[start..start + count][i] == direct[i] {
      assert part[start + i] == s[from + start + i];
    }
  }

  // ----- other holders -----

  /** Buffers other than `b` have kept their cells. */
  ghost predicate KeptBut<V>(before: Buffers<V>, after: Buffers<V>, b: Id) {
    forall c :: c in after && c != b ==> c in before && SameCells(after[c], before[c])
  }

  /** When the only buffer that has changed has one holder, other variables show what they did. */
  lemma OthersShow<V>(before: Buffers<V>, after: Buffers<V>, pointers: Pointers, next: Id, v: int, w: int)
    requires HeapValid(after, pointers, next)
    requires Variable(v) in pointers && after[pointers[Variable(v)]].refCount == 1
    requires KeptBut(before, after, pointers[Variable(v)])
    requires v != w && Variable(w) in pointers
    ensures Contents(after, pointers[Variable(w)]) == Contents(before, pointers[Variable(w)])
  {
    var b := pointers[Variable(w)];
    OnlyHolder(after, pointers, Variable(v));
    assert b != pointers[Variable(v)] && SameCells(after[b], before[b]);
    if after[b].View? {
      assert ViewValid(after, pointers, b);
      RootHeld(after, pointers, b);
      assert SameCells(after[after[b].root], before[after[b].root]);
    }
  }

  lemma HeldOnce<V>(buffers: Buffers<V>, pointers: Pointers, next: Id, v: int)
    requires HeapValid(buffers, pointers, next) && Variable(v) in pointers
    requires forall w :: w != v && Variable(w) in pointers ==> pointers[Variable(w)] != pointers[Variable(v)]
    requires forall view :: view in buffers && buffers[view].View? ==> buffers[view].parent != pointers[Variable(v)]
    ensures buffers[pointers[Variable(v)]].refCount == 1
  {
    var b := pointers[Variable(v)];
    forall p | p in Holders(pointers, b) ensures p == Variable(v) {
      match p
      case Variable(_) =>
      case Releaser(_) => assert false;
    }
    assert Holders(pointers, b) == {Variable(v)};
  }

  // ----- the end -----

  lemma ReleaserNewer<V>(buffers: Buffers<V>, pointers: Pointers, next: Id, p: Pointer)
    requires HeapValid(buffers, pointers, next) && p in pointers && p.Releaser?
    ensures p.view in buffers && pointers[p] < p.view
  {
    assert p == Releaser(p.view);
    assert ViewValid(buffers, pointers, p.view);
  }

  /** Without variables there are no buffers: the newest could only be held by a view that is newer. */
  lemma {:induction false} NothingHeld<V>(buffers: Buffers<V>, pointers: Pointers, next: Id, n: Id)
    requires HeapValid(buffers, pointers, next) && 0 <= n <= next
    requires forall v :: Variable(v) !in pointers
    requires forall b :: b in buffers ==> b < n
    ensures buffers == map[]
    decreases n
  {
    if n == 0 {
      assert forall b :: b !in buffers;
    } else {
      if n - 1 in buffers {
        var p :| p in Holders(pointers, n - 1);
        ReleaserNewer(buffers, pointers, next, p);
        assert false;
      }
      NothingHeld(buffers, pointers, next, n - 1);
    }
  }

  /** Once no variable holds a buffer, every block has gone back to the pool with the bytes it was obtained with. */
  lemma AllReturned<V>(buffers: Buffers<V>, pointers: Pointers, next: Id, padded: nat, used: nat,
                       obtained: map<Id, int>, returned: map<Id, int>)
    requires HeapValid(buffers, pointers, next) && LedgerValid(buffers, padded, next, used, obtained, returned)
    requires forall v :: Variable(v) !in pointers
    ensures buffers == map[] && used == 0 && returned == obtained
  {
    NothingHeld(buffers, pointers, next, next);
    NothingOutstanding(buffers, padded, next);
    forall b | b in obtained ensures b in returned {
      assert b !in buffers;
    }
    forall b | b in returned ensures b in obtained && returned[b] == obtained[b] {
    }
    assert returned.Keys == obtained.Keys;
  }

  lemma {:induction false} NothingOutstanding<V>(buffers: Buffers<V>, padded: nat, n: nat)
    requires buffers == map[]
    ensures Outstanding(buffers, padded, n) == 0
  {
    if n > 0 {
      NothingOutstanding(buffers, padded, n - 1);
    }
  }
}
