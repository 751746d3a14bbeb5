/** The jump list of jump-list.ts: a ring of 100 bookmarks with a pointer into it,
    the newest position (`head`) and the oldest one still kept (`tail`). */
module JumpLists {
  import opened Common
  import opened Adapters

  const Size := 100

  /** JavaScript's `a % b` for positive `b`: the result takes the sign of `a`. */
  function JsRem(a: int, b: int): (r: int)
    requires b > 0
    ensures a >= 0 ==> r == a % b && 0 <= r < b
    ensures a < 0 ==> -b < r <= 0
  {
    if a >= 0 then a % b else -((-a) % b)
  }

  /** The jump list's fields as values. */
  datatype Ring = Ring(pointer: int, head: int, tail: int, slots: seq<Option<Marker>>)

  /** The adapter's bookmark table as values. */
  datatype Marks = Marks(marks: map<nat, Marker>, uid: nat)

  /** What the fields of a jump list always satisfy: 100 slots, a pointer that has
      not moved below the slot before the tail, and a tail at or before the head. */
  predicate RingValid(r: Ring) {
    |r.slots| == Size && r.pointer >= -1 && 0 <= r.tail <= r.head
  }

  /** Every bookmark in the ring was issued before the table's counter. */
  predicate IssuedBefore(r: Ring, t: Marks) {
    forall i :: 0 <= i < |r.slots| && r.slots[i].Some? ==> r.slots[i].value.id < t.uid
  }

  /** `buffer[i]`, which is undefined outside the array. */
  function SlotAt(slots: seq<Option<Marker>>, i: int): (m: Option<Marker>)
    ensures m.Some? ==> 0 <= i < |slots| && m == slots[i]
  {
    if 0 <= i < |slots| then slots[i] else None
  }

  // ---------------------------------------------------------------------
  // add

  /** The slot `++pointer % size`. */
  function NextSlot(r: Ring): (i: int)
    requires RingValid(r)
    ensures 0 <= i < Size
  {
    JsRem(r.pointer + 1, Size)
  }

  /** `useNextSlot(cursor)`: advance the pointer, clear the bookmark the slot held
      and store a new one for `cursor` there. */
  function UseNextSlotSpec(r: Ring, t: Marks, cursor: Pos): (res: (Ring, Marks))
    requires RingValid(r)
    ensures RingValid(res.0) && res.0.pointer == r.pointer + 1
    ensures res.0.head == r.head && res.0.tail == r.tail
    ensures res.1.uid == t.uid + 1
  {
    var next := NextSlot(r);
    var trash := r.slots[next];
    var cleared := if trash.Some? then t.marks - {trash.value.id} else t.marks;
    var bm := Marker(t.uid, cursor.line, cursor.ch, true);
    (Ring(r.pointer + 1, r.head, r.tail, r.slots[next := Some(bm)]), Marks(cleared[bm.id := bm], t.uid + 1))
  }

  /** Whether `add` first records `oldCur`: the current slot is empty, or its
      bookmark resolves to a position other than `oldCur`. */
  predicate RecordsOld(r: Ring, find: Marker -> Option<Pos>, oldCur: Pos) {
    var cur := SlotAt(r.slots, JsRem(r.pointer, Size));
    cur.None? || (find(cur.value).Some? && find(cur.value).value != oldCur)
  }

  /** `add(adapter, oldCur, newCur)` */
  function AddSpec(r: Ring, t: Marks, find: Marker -> Option<Pos>, oldCur: Pos, newCur: Pos): (res: (Ring, Marks))
    requires RingValid(r)
    ensures RingValid(res.0)
  {
    var first := if RecordsOld(r, find, oldCur) then UseNextSlotSpec(r, t, oldCur) else (r, t);
    var second := UseNextSlotSpec(first.0, first.1, newCur);
    var p := second.0.pointer;
    (Ring(p, p, if p - Size + 1 < 0 then 0 else p - Size + 1, second.0.slots), second.1)
  }

  /** After `add` the head is the pointer and the tail is 99 entries behind it, or 0. */
  lemma AddSetsHeadAndTail(r: Ring, t: Marks, find: Marker -> Option<Pos>, oldCur: Pos, newCur: Pos)
    requires RingValid(r)
    ensures var (r', _) := AddSpec(r, t, find, oldCur, newCur);
      r'.head == r'.pointer && r'.tail == (if r'.pointer - 99 < 0 then 0 else r'.pointer - 99)
  {
  }

  /** `add` advances by two (storing `oldCur`, then `newCur`) when it records the old
      position and by one otherwise, issuing one bookmark per step. A fresh list
      (pointer -1) reads its current slot as empty, since `-1 % 100` is -1. */
  lemma AddAdvance(r: Ring, t: Marks, find: Marker -> Option<Pos>, oldCur: Pos, newCur: Pos)
    requires RingValid(r)
    ensures var (r', t') := AddSpec(r, t, find, oldCur, newCur);
      var steps := if RecordsOld(r, find, oldCur) then 2 else 1;
      r'.pointer == r.pointer + steps && t'.uid == t.uid + steps
    ensures r.pointer == -1 ==> RecordsOld(r, find, oldCur)
  {
    assert JsRem(-1, Size) == -1;
  }

  /** After `add` the slot `pointer % 100` holds the newest bookmark, set at `newCur`;
      when the old position was recorded, the slot before holds it, set at `oldCur`. */
  lemma AddStoresCursors(r: Ring, t: Marks, find: Marker -> Option<Pos>, oldCur: Pos, newCur: Pos)
    requires RingValid(r) && IssuedBefore(r, t)
    ensures var (r', t') := AddSpec(r, t, find, oldCur, newCur);
      && r'.slots[r'.pointer % Size] == Some(Marker(t'.uid - 1, newCur.line, newCur.ch, true))
      && t'.uid - 1 in t'.marks && t'.marks[t'.uid - 1] == Marker(t'.uid - 1, newCur.line, newCur.ch, true)
      && (RecordsOld(r, find, oldCur) ==>
            r'.slots[(r'.pointer - 1) % Size] == Some(Marker(t.uid, oldCur.line, oldCur.ch, true))
            && t.uid in t'.marks)
  {
    var first := if RecordsOld(r, find, oldCur) then UseNextSlotSpec(r, t, oldCur) else (r, t);
    if RecordsOld(r, find, oldCur) {
      assert NextSlot(first.0) != NextSlot(r) by {
        assert NextSlot(first.0) == (r.pointer + 2) % Size && NextSlot(r) == (r.pointer + 1) % Size;
      }
      var trash := first.0.slots[NextSlot(first.0)];
      assert trash == r.slots[NextSlot(first.0)];
      assert trash.Some? ==> trash.value.id < t.uid;
    }
  }

  /** Every slot `add` overwrites loses its old bookmark from the table. */
  lemma AddClearsOverwritten(r: Ring, t: Marks, find: Marker -> Option<Pos>, oldCur: Pos, newCur: Pos)
    requires RingValid(r) && IssuedBefore(r, t)
    ensures var (r', t') := AddSpec(r, t, find, oldCur, newCur);
      && IssuedBefore(r', t')
      && (r.slots[NextSlot(r)].Some? ==> r.slots[NextSlot(r)].value.id !in t'.marks)
      && (RecordsOld(r, find, oldCur) && r.slots[(r.pointer + 2) % Size].Some? ==>
            r.slots[(r.pointer + 2) % Size].value.id !in t'.marks)
  {
    var first := if RecordsOld(r, find, oldCur) then UseNextSlotSpec(r, t, oldCur) else (r, t);
    var second := UseNextSlotSpec(first.0, first.1, newCur);
    assert IssuedBefore(first.0, first.1);
    assert IssuedBefore(second.0, second.1);
    if RecordsOld(r, find, oldCur) {
      assert NextSlot(first.0) == (r.pointer + 2) % Size && NextSlot(r) == (r.pointer + 1) % Size;
      assert NextSlot(first.0) != NextSlot(r);
      assert first.0.slots[NextSlot(first.0)] == r.slots[NextSlot(first.0)];
    }
  }

  // ---------------------------------------------------------------------
  // move

  /** `pointer + offset` clamped into `[tail, head]`. */
  function Clamped(r: Ring, offset: int): (p: int)
    requires RingValid(r)
    ensures r.tail <= p <= r.head
    ensures r.tail <= r.pointer + offset <= r.head ==> p == r.pointer + offset
  {
    var p := r.pointer + offset;
    if p > r.head then r.head else if p < r.tail then r.tail else p
  }

  /** `buffer[(size + p) % size]` */
  function MarkAt(slots: seq<Option<Marker>>, p: int): Option<Marker> {
    SlotAt(slots, JsRem(Size + p, Size))
  }

  /** A bookmark the skip loop stops at: it resolves, to a position other than the cursor. */
  predicate LiveAway(m: Option<Marker>, find: Marker -> Option<Pos>, cursor: Pos) {
    m.Some? && find(m.value).Some? && find(m.value).value != cursor
  }

  /** The `do … while` loop of `move` started at `p`: step by `inc` until a live
      bookmark away from the cursor, or until the pointer is no longer strictly
      between tail and head. */
  function Skip(slots: seq<Option<Marker>>, find: Marker -> Option<Pos>, cursor: Pos,
                head: int, tail: int, p: int, inc: int): (res: (int, Option<Marker>))
    requires inc == 1 || inc == -1
    requires tail <= p <= head
    ensures res.1 == MarkAt(slots, res.0)
    ensures tail - 1 <= res.0 <= head + 1
    ensures inc > 0 ==> p < res.0
    ensures inc < 0 ==> res.0 < p
    decreases if inc > 0 then head - p else p - tail
  {
    var q := p + inc;
    var m := MarkAt(slots, q);
    if LiveAway(m, find, cursor) then (q, m)
    else if q < head && q > tail then Skip(slots, find, cursor, head, tail, q, inc)
    else (q, m)
  }

  /** `move(adapter, offset)`: the new pointer and the bookmark returned. */
  function MoveSpec(r: Ring, find: Marker -> Option<Pos>, cursor: Pos, offset: int): (res: (int, Option<Marker>))
    requires RingValid(r)
    ensures res.1 == MarkAt(r.slots, res.0)
    ensures r.tail - 1 <= res.0 <= r.head + 1
  {
    var p := Clamped(r, offset);
    var m := MarkAt(r.slots, p);
    if m.Some? && find(m.value).None? then Skip(r.slots, find, cursor, r.head, r.tail, p, if offset > 0 then 1 else -1)
    else (p, m)
  }

  /** Every position strictly between `lo` and `hi` lies strictly inside the range
      and holds no live bookmark away from the cursor. */
  predicate PassedOver(slots: seq<Option<Marker>>, find: Marker -> Option<Pos>, cursor: Pos,
                       head: int, tail: int, lo: int, hi: int) {
    forall x :: lo < x < hi ==> Passable(slots, find, cursor, head, tail, x)
  }

  /** A position the skip loop steps over. */
  predicate Passable(slots: seq<Option<Marker>>, find: Marker -> Option<Pos>, cursor: Pos,
                     head: int, tail: int, x: int) {
    tail < x < head && !LiveAway(MarkAt(slots, x), find, cursor)
  }

  /** The skip loop moves strictly in its direction, passes only positions strictly
      inside the range that hold no live bookmark away from the cursor, steps at most
      one past the range, and stops at a live bookmark away from the cursor or at the
      range's end. */
  lemma {:induction false} SkipStops(slots: seq<Option<Marker>>, find: Marker -> Option<Pos>, cursor: Pos,
                                    head: int, tail: int, p: int, inc: int)
    requires inc == 1 || inc == -1
    requires tail <= p <= head
    ensures var res := Skip(slots, find, cursor, head, tail, p, inc);
      && res.1 == MarkAt(slots, res.0)
      && tail - 1 <= res.0 <= head + 1
      && (inc > 0 ==> p < res.0 && PassedOver(slots, find, cursor, head, tail, p, res.0))
      && (inc < 0 ==> res.0 < p && PassedOver(slots, find, cursor, head, tail, res.0, p))
      && (LiveAway(res.1, find, cursor) || res.0 >= head || res.0 <= tail)
    decreases if inc > 0 then head - p else p - tail
  {
    var q := p + inc;
    if !LiveAway(MarkAt(slots, q), find, cursor) && q < head && q > tail {
      SkipStops(slots, find, cursor, head, tail, q, inc);
      var end := Skip(slots, find, cursor, head, tail, q, inc).0;
      assert Skip(slots, find, cursor, head, tail, p, inc) == Skip(slots, find, cursor, head, tail, q, inc);
      if inc > 0 {
        forall x | p < x < end ensures Passable(slots, find, cursor, head, tail, x) {
          if x != q { assert q < x < end; }
        }
      } else {
        forall x | end < x < p ensures Passable(slots, find, cursor, head, tail, x) {
          if x != q { assert end < x < q; }
        }
      }
    }
  }

  /** `move` lands on the clamped position whenever that slot is empty or its
      bookmark resolves; otherwise it skips, and the pointer ends within
      `[tail - 1, head + 1]`. */
  lemma MoveBounds(r: Ring, find: Marker -> Option<Pos>, cursor: Pos, offset: int)
    requires RingValid(r)
    ensures var p := Clamped(r, offset);
      var m := MarkAt(r.slots, p);
      && (m.None? || find(m.value).Some? ==> MoveSpec(r, find, cursor, offset) == (p, m))
      && r.tail - 1 <= MoveSpec(r, find, cursor, offset).0 <= r.head + 1
      && MoveSpec(r, find, cursor, offset).1 == MarkAt(r.slots, MoveSpec(r, find, cursor, offset).0)
  {
    var p := Clamped(r, offset);
    SkipStops(r.slots, find, cursor, r.head, r.tail, p, if offset > 0 then 1 else -1);
  }

  /** With the adapter's bookmarks, which always resolve, `move` never skips: it
      only clamps. */
  lemma AdapterMoveOnlyClamps(r: Ring, cursor: Pos, offset: int)
    requires RingValid(r)
    ensures MoveSpec(r, AdapterFind, cursor, offset) == (Clamped(r, offset), MarkAt(r.slots, Clamped(r, offset)))
  {
  }

  // ---------------------------------------------------------------------
  // The object

  class CircularJumpList {
    var pointer: int
    var head: int
    var tail: int
    const buffer: array<Option<Marker>>
    var cachedCursor: Option<Pos>

    predicate Valid()
      reads this, buffer
    {
      RingValid(View())
    }

    function View(): Ring
      reads this, buffer
    {
      Ring(pointer, head, tail, buffer[..])
    }

    /** A fresh list: pointer -1, head and tail 0, 100 empty slots. */
    constructor ()
      ensures Valid() && fresh(buffer)
      ensures pointer == -1 && head == 0 && tail == 0 && cachedCursor.None?
      ensures buffer[..] == seq(Size, _ => None)
    {
      pointer, head, tail := -1, 0, 0;
      buffer := new Option<Marker>[Size](_ => None);
      cachedCursor := None;
    }

    method UseNextSlot(adapter: MarkTable, cursor: Pos)
      requires Valid() && adapter.Valid()
      modifies this`pointer, buffer, adapter
      ensures Valid() && adapter.Valid()
      ensures (View(), Marks(adapter.marks, adapter.uid))
           == UseNextSlotSpec(old(View()), old(Marks(adapter.marks, adapter.uid)), cursor)
    {
      pointer := pointer + 1;
      var next := JsRem(pointer, Size);
      var trashMark := buffer[next];
      if trashMark.Some? {
        adapter.Clear(trashMark.value);
      }
      var bm := adapter.SetBookmark(cursor, false);
      buffer[next] := Some(bm);
    }

    /** `add(adapter, oldCur, newCur)` */
    method Add(adapter: MarkTable, find: Marker -> Option<Pos>, oldCur: Pos, newCur: Pos)
      requires Valid() && adapter.Valid()
      modifies this, buffer, adapter
      ensures Valid() && adapter.Valid()
      ensures (View(), Marks(adapter.marks, adapter.uid))
           == AddSpec(old(View()), old(Marks(adapter.marks, adapter.uid)), find, oldCur, newCur)
    {
      var current := JsRem(pointer, Size);
      var curMark := if 0 <= current < Size then buffer[current] else None;
      assert curMark == SlotAt(buffer[..], current);
      if curMark.Some? {
        var markPos := find(curMark.value);
        if markPos.Some? && markPos.value != oldCur {
          UseNextSlot(adapter, oldCur);
        }
      } else {
        UseNextSlot(adapter, oldCur);
      }
      UseNextSlot(adapter, newCur);
      head := pointer;
      tail := pointer - Size + 1;
      if tail < 0 {
        tail := 0;
      }
    }

    /** `move(adapter, offset)`, with `cursor` the adapter's cursor. */
    method Move(find: Marker -> Option<Pos>, cursor: Pos, offset: int) returns (mark: Option<Marker>)
      requires Valid()
      modifies this`pointer
      ensures Valid()
      ensures (pointer, mark) == MoveSpec(old(View()), find, cursor, offset)
    {
      pointer := pointer + offset;
      if pointer > head {
        pointer := head;
      } else if pointer < tail {
        pointer := tail;
      }
      mark := MarkAt(buffer[..], pointer);
      if mark.Some? && find(mark.value).None? {
        mark := SkipStale(find, cursor, if offset > 0 then 1 else -1);
      }
    }

    /** The `do … while` loop of `move`, from the clamped pointer. */
    method SkipStale(find: Marker -> Option<Pos>, cursor: Pos, inc: int) returns (mark: Option<Marker>)
      requires inc == 1 || inc == -1
      requires tail <= pointer <= head
      modifies this`pointer
      ensures (pointer, mark) == Skip(buffer[..], find, cursor, head, tail, old(pointer), inc)
    {
      ghost var goal := Skip(buffer[..], find, cursor, head, tail, pointer, inc);
      while true
        invariant tail <= pointer <= head
        invariant Skip(buffer[..], find, cursor, head, tail, pointer, inc) == goal
        decreases if inc > 0 then head - pointer else pointer - tail
      {
        pointer := pointer + inc;
        mark := MarkAt(buffer[..], pointer);
        if LiveAway(mark, find, cursor) {
          break;
        }
        if !(pointer < head && pointer > tail) {
          break;
        }
      }
      assert (pointer, mark) == goal;
    }

    /** `find(adapter, offset)`: where `move` would go, without moving. */
    method Find(find: Marker -> Option<Pos>, cursor: Pos, offset: int) returns (pos: Option<Pos>)
      requires Valid()
      modifies this`pointer
      ensures pointer == old(pointer)
      ensures var m := MoveSpec(old(View()), find, cursor, offset).1;
        pos == if m.Some? then find(m.value) else None
    {
      var oldPointer := pointer;
      var mark := Move(find, cursor, offset);
      pointer := oldPointer;
      pos := if mark.Some? then find(mark.value) else None;
    }
  }
}
