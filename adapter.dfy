/** The editor-independent parts of adapter.ts: selections, the conversion between
    the adapter's zero-based positions and the editor's one-based ones, key map
    lookup with fallthrough, the event listener table and the bookmark table. */
module Adapters {
  import opened Common

  // ---------------------------------------------------------------------
  // Selections

  /** Lexicographic order on positions: by line, then by character. */
  predicate Before(a: Pos, b: Pos) {
    a.line < b.line || (a.line == b.line && a.ch < b.ch)
  }

  predicate AtOrBefore(a: Pos, b: Pos) { Before(a, b) || a == b }

  /** `CmSelection`: where the selection started and where the cursor is. */
  datatype CmSelection = CmSelection(anchor: Pos, head: Pos)

  /** `from()`: the end of the selection that comes first in the document; the
      head when both ends are equal. */
  function From(s: CmSelection): (r: Pos)
    ensures r == s.anchor || r == s.head
    ensures AtOrBefore(r, s.anchor) && AtOrBefore(r, s.head)
    ensures r == s.anchor <==> Before(s.anchor, s.head) || s.anchor == s.head
  {
    if s.anchor.line < s.head.line then s.anchor
    else if s.anchor.line == s.head.line then (if s.anchor.ch < s.head.ch then s.anchor else s.head)
    else s.head
  }

  /** `empty()`: the selection has no extent. */
  function Empty(s: CmSelection): (b: bool)
    ensures b <==> s.anchor == s.head
    ensures b <==> !Before(s.anchor, s.head) && !Before(s.head, s.anchor)
  {
    s.anchor.line == s.head.line && s.anchor.ch == s.head.ch
  }

  /** The selection reaches from `From(s)` to the other end, never backwards. */
  lemma FromIsStart(s: CmSelection)
    ensures var other := if From(s) == s.anchor then s.head else s.anchor;
      AtOrBefore(From(s), other) && (Empty(s) <==> From(s) == other)
  {
  }

  // ---------------------------------------------------------------------
  // Positions

  /** The editor's one-based position (`IPosition`). */
  datatype EditorPos = EditorPos(lineNumber: int, column: int)

  /** `toAdapterPos` */
  function ToAdapterPos(p: EditorPos): (r: Pos)
    ensures r.line == p.lineNumber - 1 && r.ch == p.column - 1
  {
    Pos(p.lineNumber - 1, p.column - 1)
  }

  /** `toMonacoPos` */
  function ToMonacoPos(p: Pos): (r: EditorPos)
    ensures r.lineNumber == p.line + 1 && r.column == p.ch + 1
  {
    EditorPos(p.line + 1, p.ch + 1)
  }

  lemma PositionRoundTrips(p: Pos, q: EditorPos)
    ensures ToAdapterPos(ToMonacoPos(p)) == p
    ensures ToMonacoPos(ToAdapterPos(q)) == q
  {
  }

  /** The conversion keeps the document order. */
  lemma ConversionKeepsOrder(p: Pos, q: Pos)
    ensures Before(p, q) <==> Before(ToAdapterPos(ToMonacoPos(p)), ToAdapterPos(ToMonacoPos(q)))
    ensures ToMonacoPos(p) == ToMonacoPos(q) <==> p == q
  {
  }

  // ---------------------------------------------------------------------
  // Key maps

  /** What a key map entry yields for a key: `find(key)` gives a boolean,
      `keys[key]` a string or nothing. */
  datatype Found = Missing | FoundBool(b: bool) | FoundString(s: string)

  /** A key map entry's `fallthrough`: nothing, one key map name, or several. */
  datatype Fallthrough = NoFallthrough | FallOne(name: string) | FallMany(names: seq<string>)

  /** `KeyMapEntry`: a `find` test or a `keys` table, and where to look next. */
  datatype KeyMapEntry = KeyMapEntry(find: Option<string -> bool>, keys: Option<map<string, string>>, fallthrough: Fallthrough)

  /** A key map given directly or by its name in the static `keyMap` table. */
  datatype KeyMapRef = ByName(name: string) | Direct(entry: KeyMapEntry)

  /** `lookupKey`'s answer; `Undefined` is the falsy one. */
  datatype Lookup = Nothing | Multi | Handled | Undefined

  /** The binding `lookupKey` offers to its handler. */
  function FoundEntry(e: KeyMapEntry, key: string): Found {
    if e.find.Some? then FoundBool(e.find.value(key))
    else if e.keys.Some? then (if key in e.keys.value then FoundString(e.keys.value[key]) else Missing)
    else Missing
  }

  /** A step of the lookup that produces an answer without looking further. */
  predicate Truthy(r: Result<Lookup>) { r.Err? || r.value != Undefined }

  /** `lookupKey(key, map, handle)`. A name missing from `table` makes the source
      fail with a type error when it reads the entry; `fuel` bounds the depth of
      fallthrough chains, which the source leaves unbounded. An empty fallthrough
      name is falsy and ends the lookup. "handled" is only ever the answer of a
      handler, so without one it never comes back. */
  function LookupKey(key: string, m: KeyMapRef, handle: Option<Found -> bool>,
                     table: map<string, KeyMapEntry>, fuel: nat): (r: Result<Lookup>)
    ensures r == Ok(Handled) ==> handle.Some?
    decreases fuel, 0
  {
    if fuel == 0 then Err("too much recursion")
    else if m.ByName? && m.name !in table then Err("Cannot read properties of undefined")
    else
      var e := if m.ByName? then table[m.name] else m.entry;
      var found := FoundEntry(e, key);
      if found == FoundBool(false) then Ok(Nothing)
      else if found == FoundString("...") then Ok(Multi)
      else if found != Missing && handle.Some? && handle.value(found) then Ok(Handled)
      else match e.fallthrough
        case NoFallthrough => Ok(Undefined)
        case FallOne(n) => if n == "" then Ok(Undefined) else LookupKey(key, ByName(n), handle, table, fuel - 1)
        case FallMany(ns) => LookupEach(key, ns, handle, table, fuel - 1)
  }

  /** The loop over a fallthrough list: the first truthy result, or undefined. */
  function LookupEach(key: string, names: seq<string>, handle: Option<Found -> bool>,
                      table: map<string, KeyMapEntry>, fuel: nat): (r: Result<Lookup>)
    ensures r == Ok(Handled) ==> handle.Some?
    decreases fuel, 1, |names|
  {
    if names == [] then Ok(Undefined)
    else
      var r := LookupKey(key, ByName(names[0]), handle, table, fuel);
      if Truthy(r) then r else LookupEach(key, names[1..], handle, table, fuel)
  }

  /** The direct answers of `lookupKey`: `false` is "nothing", `"..."` is "multi",
      and a binding the handler accepts is "handled". */
  lemma LookupDirect(key: string, e: KeyMapEntry, handle: Option<Found -> bool>, table: map<string, KeyMapEntry>, fuel: nat)
    requires fuel > 0
    ensures FoundEntry(e, key) == FoundBool(false) ==> LookupKey(key, Direct(e), handle, table, fuel) == Ok(Nothing)
    ensures FoundEntry(e, key) == FoundString("...") ==> LookupKey(key, Direct(e), handle, table, fuel) == Ok(Multi)
    ensures && FoundEntry(e, key) != FoundBool(false) && FoundEntry(e, key) != FoundString("...")
            && FoundEntry(e, key) != Missing && handle.Some? && handle.value(FoundEntry(e, key))
            ==> LookupKey(key, Direct(e), handle, table, fuel) == Ok(Handled)
    ensures e.fallthrough == NoFallthrough ==> LookupKey(key, Direct(e), handle, table, fuel).Ok?
  {
  }

  /** A single fallthrough name is followed, except the empty one, which is falsy
      and gives undefined. */
  lemma LookupFallsToOne(key: string, e: KeyMapEntry, handle: Option<Found -> bool>, table: map<string, KeyMapEntry>, fuel: nat)
    requires fuel > 0 && e.fallthrough.FallOne?
    requires FoundEntry(e, key) != FoundBool(false) && FoundEntry(e, key) != FoundString("...")
    requires !(FoundEntry(e, key) != Missing && handle.Some? && handle.value(FoundEntry(e, key)))
    ensures e.fallthrough.name == "" ==> LookupKey(key, Direct(e), handle, table, fuel) == Ok(Undefined)
    ensures e.fallthrough.name != "" ==>
      LookupKey(key, Direct(e), handle, table, fuel) == LookupKey(key, ByName(e.fallthrough.name), handle, table, fuel - 1)
  {
  }

  /** The first truthy result of a sequence of lookups, or undefined. */
  function FirstTruthy(rs: seq<Result<Lookup>>): (r: Result<Lookup>)
    ensures Truthy(r) ==> exists i :: 0 <= i < |rs| && rs[i] == r && forall j :: 0 <= j < i ==> !Truthy(rs[j])
    ensures !Truthy(r) ==> r == Ok(Undefined) && forall i :: 0 <= i < |rs| ==> !Truthy(rs[i])
  {
    if rs == [] then Ok(Undefined)
    else if Truthy(rs[0]) then rs[0]
    else
      var r := FirstTruthy(rs[1..]);
      FirstAfterFalsy(rs, r);
      r
  }

  lemma FirstAfterFalsy(rs: seq<Result<Lookup>>, r: Result<Lookup>)
    requires rs != [] && !Truthy(rs[0])
    requires Truthy(r) ==> exists i :: 0 <= i < |rs[1..]| && rs[1..][i] == r && forall j :: 0 <= j < i ==> !Truthy(rs[1..][j])
    ensures Truthy(r) ==> exists i :: 0 <= i < |rs| && rs[i] == r && forall j :: 0 <= j < i ==> !Truthy(rs[j])
  {
    if Truthy(r) {
      var i :| 0 <= i < |rs[1..]| && rs[1..][i] == r && forall j :: 0 <= j < i ==> !Truthy(rs[1..][j]);
      assert rs[i + 1] == r;
      forall j | 0 <= j < i + 1 ensures !Truthy(rs[j]) {
        if j > 0 { assert rs[j] == rs[1..][j - 1]; }
      }
    }
  }

  /** The lookups of each map of a fallthrough list, in order. */
  function Lookups(key: string, names: seq<string>, handle: Option<Found -> bool>,
                   table: map<string, KeyMapEntry>, fuel: nat): (rs: seq<Result<Lookup>>)
    ensures |rs| == |names|
    ensures forall i :: 0 <= i < |names| ==> rs[i] == LookupKey(key, ByName(names[i]), handle, table, fuel)
  {
    seq(|names|, i requires 0 <= i < |names| => LookupKey(key, ByName(names[i]), handle, table, fuel))
  }

  /** The loop over a fallthrough list answers with the first truthy lookup among
      the listed maps, in order. */
  lemma {:induction false} LookupEachIsFirstTruthy(key: string, names: seq<string>, handle: Option<Found -> bool>,
                                                   table: map<string, KeyMapEntry>, fuel: nat)
    ensures LookupEach(key, names, handle, table, fuel) == FirstTruthy(Lookups(key, names, handle, table, fuel))
    decreases |names|
  {
    if names != [] {
      var rs := Lookups(key, names, handle, table, fuel);
      LookupEachIsFirstTruthy(key, names[1..], handle, table, fuel);
      assert rs[1..] == Lookups(key, names[1..], handle, table, fuel);
    }
  }

  /** An entry with a fallthrough list and no direct answer loops over the list. */
  lemma DirectFallMany(key: string, e: KeyMapEntry, handle: Option<Found -> bool>,
                       table: map<string, KeyMapEntry>, fuel: nat)
    requires fuel > 0 && e.fallthrough.FallMany?
    requires FoundEntry(e, key) != FoundBool(false) && FoundEntry(e, key) != FoundString("...")
    requires !(FoundEntry(e, key) != Missing && handle.Some? && handle.value(FoundEntry(e, key)))
    ensures LookupKey(key, Direct(e), handle, table, fuel) == LookupEach(key, e.fallthrough.names, handle, table, fuel - 1)
  {
  }

  /** After the direct answers, a fallthrough list is searched in order; the
      answer is undefined only when every listed map answers undefined. */
  lemma LookupFallsThrough(key: string, e: KeyMapEntry, handle: Option<Found -> bool>,
                           table: map<string, KeyMapEntry>, fuel: nat)
    requires fuel > 0 && e.fallthrough.FallMany?
    requires FoundEntry(e, key) != FoundBool(false) && FoundEntry(e, key) != FoundString("...")
    requires !(FoundEntry(e, key) != Missing && handle.Some? && handle.value(FoundEntry(e, key)))
    ensures var names := e.fallthrough.names;
      var r := LookupKey(key, Direct(e), handle, table, fuel);
      && (r == Ok(Undefined) <==> forall i :: 0 <= i < |names| ==> !Truthy(LookupKey(key, ByName(names[i]), handle, table, fuel - 1)))
      && (r != Ok(Undefined) ==>
            exists i :: (&& 0 <= i < |names| && r == LookupKey(key, ByName(names[i]), handle, table, fuel - 1)
                         && forall j :: 0 <= j < i ==> !Truthy(LookupKey(key, ByName(names[j]), handle, table, fuel - 1))))
  {
    var names := e.fallthrough.names;
    DirectFallMany(key, e, handle, table, fuel);
    LookupEachIsFirstTruthy(key, names, handle, table, fuel - 1);
    FirstOfLookups(key, names, handle, table, fuel - 1);
  }

  /** The first truthy lookup of a list, spelled out. */
  lemma FirstOfLookups(key: string, names: seq<string>, handle: Option<Found -> bool>,
                       table: map<string, KeyMapEntry>, fuel: nat)
    ensures var r := FirstTruthy(Lookups(key, names, handle, table, fuel));
      && (r == Ok(Undefined) <==> forall i :: 0 <= i < |names| ==> !Truthy(LookupKey(key, ByName(names[i]), handle, table, fuel)))
      && (r != Ok(Undefined) ==>
            exists i :: (&& 0 <= i < |names| && r == LookupKey(key, ByName(names[i]), handle, table, fuel)
                         && forall j :: 0 <= j < i ==> !Truthy(LookupKey(key, ByName(names[j]), handle, table, fuel))))
  {
    var rs := Lookups(key, names, handle, table, fuel);
    var r := FirstTruthy(rs);
    if r != Ok(Undefined) {
      var i :| 0 <= i < |rs| && rs[i] == r && forall j :: 0 <= j < i ==> !Truthy(rs[j]);
      assert r == LookupKey(key, ByName(names[i]), handle, table, fuel);
    } else {
      assert forall i :: 0 <= i < |names| ==> !Truthy(rs[i]);
    }
  }

  // ---------------------------------------------------------------------
  // Event listeners

  /** A registered handler, identified as the source compares them: by reference. */
  type Handler = nat

  /** `listeners.filter((l) => l !== handler)` */
  function RemoveAll(s: seq<Handler>, h: Handler): (r: seq<Handler>)
    ensures h !in r
    ensures |r| <= |s|
    ensures forall x :: x in r ==> x in s
    ensures forall x :: x != h ==> multiset(r)[x] == multiset(s)[x]
  {
    if s == [] then []
    else
      assert s == [s[0]] + s[1..];
      (if s[0] == h then [] else [s[0]]) + RemoveAll(s[1..], h)
  }

  /** Filtering a concatenation filters each part, so the kept handlers stay in order. */
  lemma {:induction false} RemoveAllConcat(s: seq<Handler>, t: seq<Handler>, h: Handler)
    ensures RemoveAll(s + t, h) == RemoveAll(s, h) + RemoveAll(t, h)
    decreases |s|
  {
    if s != [] {
      assert (s + t)[1..] == s[1..] + t;
      RemoveAllConcat(s[1..], t, h);
    } else {
      assert s + t == t;
    }
  }

  /** A list without the handler is kept as it is. */
  lemma {:induction false} RemoveAllAbsent(s: seq<Handler>, h: Handler)
    requires h !in s
    ensures RemoveAll(s, h) == s
    decreases |s|
  {
    if s != [] {
      RemoveAllAbsent(s[1..], h);
    }
  }

  /** Removing a handler that was added once to a list without it restores the list. */
  lemma OffUndoesOn(s: seq<Handler>, h: Handler)
    requires h !in s
    ensures RemoveAll(s + [h], h) == s
  {
    RemoveAllConcat(s, [h], h);
    RemoveAllAbsent(s, h);
    assert RemoveAll([h], h) == [] + RemoveAll([], h);
  }

  /** The `listeners` record of the adapter. */
  class Listeners {
    var listeners: map<string, seq<Handler>>

    constructor ()
      ensures listeners == map[]
    {
      listeners := map[];
    }

    /** The handlers `dispatch(signal)` calls, in calling order; a signal nobody
        has subscribed to calls none. */
    function Dispatch(signal: string): (r: seq<Handler>)
      reads this
      ensures signal !in listeners ==> r == []
    {
      if signal in listeners then listeners[signal] else []
    }

    /** `on(event, handler)` */
    method On(event: string, handler: Handler)
      modifies this
      ensures listeners == old(listeners)[event := old(Dispatch(event)) + [handler]]
      ensures Dispatch(event) == old(Dispatch(event)) + [handler]
      ensures forall e :: e != event ==> Dispatch(e) == old(Dispatch(e))
    {
      if event !in listeners {
        listeners := listeners[event := []];
      }
      listeners := listeners[event := listeners[event] + [handler]];
    }

    /** `off(event, handler)` */
    method Off(event: string, handler: Handler)
      modifies this
      ensures event in old(listeners) ==> listeners == old(listeners)[event := RemoveAll(old(listeners)[event], handler)]
      ensures event !in old(listeners) ==> listeners == old(listeners)
      ensures handler !in Dispatch(event)
      ensures Dispatch(event) == RemoveAll(old(Dispatch(event)), handler)
      ensures forall e :: e != event ==> Dispatch(e) == old(Dispatch(e))
    {
      if event !in listeners {
        return;
      }
      listeners := listeners[event := RemoveAll(listeners[event], handler)];
    }
  }

  // ---------------------------------------------------------------------
  // Bookmarks

  /** `Marker`: a bookmark with its id and the position it was set at. */
  datatype Marker = Marker(id: nat, line: int, ch: int, insertRight: bool)

  /** `Marker.find()` of the adapter: the position the marker was set at. */
  function AdapterFind(m: Marker): (r: Option<Pos>)
    ensures r.Some? && r.value.line == m.line && r.value.ch == m.ch
  {
    Some(Pos(m.line, m.ch))
  }

  /** The adapter's `marks` map and its `uid` counter. */
  class MarkTable {
    var marks: map<nat, Marker>
    var uid: nat

    /** Every registered marker is stored under its own id, below the counter. */
    predicate Valid()
      reads this
    {
      forall id :: id in marks ==> marks[id].id == id && id < uid
    }

    constructor ()
      ensures Valid() && marks == map[] && uid == 0
    {
      marks, uid := map[], 0;
    }

    /** `setBookmark(cursor, {insertLeft})`: a marker with the next id, registered in `marks`. */
    method SetBookmark(cursor: Pos, insertLeft: bool) returns (m: Marker)
      requires Valid()
      modifies this
      ensures Valid()
      ensures m == Marker(old(uid), cursor.line, cursor.ch, !insertLeft)
      ensures old(uid) !in old(marks)
      ensures uid == old(uid) + 1 && marks == old(marks)[m.id := m]
    {
      m := Marker(uid, cursor.line, cursor.ch, !insertLeft);
      marks := marks[uid := m];
      uid := uid + 1;
    }

    /** `marker.clear()`: unregister exactly that marker's id. */
    method Clear(m: Marker)
      requires Valid()
      modifies this`marks
      ensures Valid()
      ensures marks == old(marks) - {m.id}
      ensures m.id !in marks && forall id :: id in old(marks) && id != m.id ==> id in marks && marks[id] == old(marks)[id]
    {
      marks := marks - {m.id};
    }
  }
}
