/**
 The string arena (velox/buffer/StringViewBufferHolder.cpp and .h): strings are copied to the end of the last buffer,
 or to a new one when they do not fit, and the views handed out must stay as they are.
 */
module StringArena {
  import opened Buffers

  /** StringView::kInlineSize. */
  const INLINE_SIZE := 12

  /** kInitialStringReservation. */
  const INITIAL_RESERVATION := 8192

  /** A StringView: a short string holds its characters, a long one points to them. */
  datatype StringView = Inline(text: string) | Pointing(buffer: array<char>, offset: nat, size: nat)

  ghost predicate InBounds(view: StringView) {
    view.Pointing? ==> view.offset + view.size <= view.buffer.Length
  }

  ghost function Text(view: StringView): string
    requires InBounds(view)
    reads if view.Pointing? then {view.buffer} else {}
  {
    match view
    case Inline(text) => text
    case Pointing(buffer, offset, size) => buffer[offset..offset + size]
  }

  /** Two views share no character. */
  predicate Apart(a: StringView, b: StringView) {
    a.Pointing? && b.Pointing? && a.buffer == b.buffer ==>
      a.offset + a.size <= b.offset || b.offset + b.size <= a.offset
  }

  class StringViewBufferHolder {
    const paddedSize: nat
    var buffers: seq<array<char>>
    // The size of each buffer.
    var sizes: seq<nat>
    // Every buffer ever made, and every view ever handed out with what it was made for.
    ghost var made: set<array<char>>
    ghost var views: seq<StringView>
    ghost var texts: seq<string>

    ghost predicate Valid()
      reads this, made
    {
      && |buffers| == |sizes| && |views| == |texts|
      && (forall i :: 0 <= i < |buffers| ==> buffers[i] in made && sizes[i] <= buffers[i].Length)
      && (forall i :: 0 <= i < |views| ==> ViewValid(views[i], texts[i]))
      && (forall i, j :: 0 <= i < j < |views| ==> Apart(views[i], views[j]))
    }

    /** A view shows its text, and ends before the free part of the last buffer. */
    ghost predicate ViewValid(view: StringView, text: string)
      requires |buffers| == |sizes|
      reads this, made
    {
      && (view.Pointing? ==> view.buffer in made)
      && InBounds(view) && Text(view) == text
      && (view.Pointing? && buffers != [] && view.buffer == buffers[|buffers| - 1] ==>
            view.offset + view.size <= sizes[|sizes| - 1])
    }

    constructor (paddedSize: nat)
      ensures Valid() && made == {} && views == [] && buffers == []
    {
      this.paddedSize := paddedSize;
      buffers, sizes, made, views, texts := [], [], {}, [], [];
    }

    /** A buffer with room for `size` more characters is the last. */
    method Reserve(size: nat)
      requires Valid()
      modifies this
      ensures Valid() && views == old(views) && texts == old(texts) && old(made) <= made && fresh(made - old(made))
      ensures buffers != [] && sizes[|sizes| - 1] + size <= buffers[|buffers| - 1].Length
      ensures old(buffers) <= buffers && old(sizes) <= sizes
    {
      if buffers == [] || sizes[|sizes| - 1] + size > buffers[|buffers| - 1].Length {
        var requested := if size > INITIAL_RESERVATION then size else INITIAL_RESERVATION;
        var buffer := new char[PreferredSize(requested + paddedSize) - paddedSize];
        made := made + {buffer};
        buffers, sizes := buffers + [buffer], sizes + [0];
      }
    }

    /** The characters go to the end of the last buffer, past all views of it. */
    method Copy(data: string)
      requires Valid() && buffers != [] && sizes[|sizes| - 1] + |data| <= buffers[|buffers| - 1].Length
      modifies this`sizes, buffers[|buffers| - 1]
      ensures Valid() && sizes == old(sizes)[|sizes| - 1 := old(sizes[|sizes| - 1]) + |data|]
      ensures var start := old(sizes[|sizes| - 1]); buffers[|buffers| - 1][start..start + |data|] == data
    {
      var last := |buffers| - 1;
      var buffer, start := buffers[last], sizes[last];
      forall i | 0 <= i < |data| {
        buffer[start + i] := data[i];
      }
      sizes := sizes[last := start + |data|];
      forall k | 0 <= k < |views| ensures ViewValid(views[k], texts[k]) {
        assert old(ViewValid(views[k], texts[k]));
        assert Text(views[k]) == old(Text(views[k]));
      }
    }

    /** `getOwnedStringView(data, size)`: earlier views keep their text and their places. */
    method OwnCharacters(data: string) returns (view: StringView)
      requires Valid()
      modifies this, made
      ensures Valid() && old(made) <= made && fresh(made - old(made))
      ensures views == old(views) + [view] && texts == old(texts) + [data]
      ensures view.Inline? <==> |data| <= INLINE_SIZE
    {
      Reserve(|data|);
      var last := |buffers| - 1;
      var start := sizes[last];
      label Reserved:
      Copy(data);
      view := if |data| <= INLINE_SIZE then Inline(data) else Pointing(buffers[last], start, |data|);
      forall k | 0 <= k < |views| ensures Apart(views[k], view) {
        assert old@Reserved(ViewValid(views[k], texts[k]));
      }
      Log(view, data);
    }

    ghost method Log(view: StringView, text: string)
      requires Valid() && ViewValid(view, text)
      requires forall k :: 0 <= k < |views| ==> Apart(views[k], view)
      modifies this`views, this`texts
      ensures Valid() && views == old(views) + [view] && texts == old(texts) + [text]
    {
      views, texts := views + [view], texts + [text];
    }

    /** `getOwnedStringView(stringView)`: a short string is its own owner. */
    method OwnView(source: StringView) returns (view: StringView)
      requires Valid() && InBounds(source)
      modifies this, made
      ensures Valid() && old(made) <= made && fresh(made - old(made))
      ensures views == old(views) + [view] && texts == old(texts) + [old(Text(source))]
    {
      if source.Inline? {
        view := source;
        Log(view, source.text);
      } else {
        var data := source.buffer[source.offset..source.offset + source.size];
        view := OwnCharacters(data);
      }
    }

    /** `moveBuffers`: the buffers, and the views of them, are the caller's. */
    method MoveBuffers() returns (moved: seq<array<char>>)
      requires Valid()
      modifies this`buffers, this`sizes
      ensures Valid() && moved == old(buffers) && buffers == []
    {
      moved := buffers;
      buffers, sizes := [], [];
    }
  }

  /**
   A call on the arena: characters, a view of memory outside of it, the view that an earlier call gave, or the end of a
   batch of buffers.
   */
  datatype Call = Own(text: string) | OwnOutside(source: StringView) | OwnAgain(k: nat) | Take

  ghost function Outside(calls: seq<Call>): set<array<char>> {
    set c | c in calls && c.OwnOutside? && c.source.Pointing? :: c.source.buffer
  }

  /** What the views of the first `n` calls are to show; there is nothing to pass for a view not yet given. */
  ghost function Texts(calls: seq<Call>, n: nat): seq<string>
    requires n <= |calls| && forall c <- calls :: c.OwnOutside? ==> InBounds(c.source)
    reads Outside(calls)
  {
    if n == 0 then []
    else
      var before := Texts(calls, n - 1);
      match calls[n - 1]
      case Own(text) => before + [text]
      case OwnOutside(source) => before + [Text(source)]
      case OwnAgain(k) => if k < |before| then before + [before[k]] else before
      case Take => before
  }

  /** Over any calls, every view handed out still shows what it was made for, and no two views overlap. */
  method Run(holder: StringViewBufferHolder, calls: seq<Call>) returns (given: seq<StringView>)
    requires holder.Valid() && holder.views == [] && Outside(calls) !! holder.made
    requires forall c <- calls :: c.OwnOutside? ==> InBounds(c.source)
    modifies holder, holder.made
    ensures holder.Valid() && holder.views == given
    ensures holder.texts == old(Texts(calls, |calls|)) == Texts(calls, |calls|)
  {
    given := [];
    for i := 0 to |calls|
      invariant holder.Valid() && old(holder.made) <= holder.made && fresh(holder.made - old(holder.made))
      invariant holder.views == given && holder.texts == Texts(calls, i)
    {
      match calls[i]
      case Own(text) =>
        var view := holder.OwnCharacters(text);
        given := given + [view];
      case OwnOutside(source) =>
        var view := holder.OwnView(source);
        given := given + [view];
      case OwnAgain(k) =>
        if k < |given| {
          assert holder.ViewValid(holder.views[k], holder.texts[k]);
          var view := holder.OwnView(given[k]);
          given := given + [view];
        }
      case Take => var _ := holder.MoveBuffers();
    }
  }
}
