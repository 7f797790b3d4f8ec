/** Device attributes, kept twice: in memory and in the device_attr table. A
    message changes the memory and yields rows to add, delete and update in one
    transaction; when the transaction fails for good, memory is read back from
    the table. */
module DeviceAttr {
  import opened Strings

  /** An attribute as messages and memory carry it; `metadata` is the type. */
  datatype MsgAttr = MsgAttr(value: string, optional: Option<bool>, metadata: Option<string>)

  type Attrs = map<string, MsgAttr>

  /** The attributes of a message: a name may come with no attribute. */
  type MsgAttrs = map<string, Option<MsgAttr>>

  /** A row of the table; its key is its row id. */
  datatype Row = Row(device: string, name: string, value: string, optional: bool, attrType: string, metadata: string)

  type Table = map<nat, Row>

  datatype Cols = Cols(value: Option<string>, attrType: Option<string>, metadata: Option<string>, optional: Option<bool>)

  datatype AttrDelete = AttrDelete(device: string, name: string)
  datatype AttrUpdate = AttrUpdate(device: string, name: string, cols: Cols)

  // ---- What an attribute means, wherever it is kept ----

  datatype Meaning = Meaning(value: string, optional: bool, attrType: string)

  /** Absent "optional" counts as true, absent metadata as type "string". */
  function Meant(a: MsgAttr): Meaning
  {
    Meaning(a.value, a.optional.None? || a.optional.value, if a.metadata.None? then "string" else a.metadata.value)
  }

  function RowMeaning(r: Row): Meaning
  {
    Meaning(r.value, r.optional, r.attrType)
  }

  /** No two rows are for the same attribute. */
  ghost predicate UniqueRows(table: Table)
  {
    forall i, j | i in table && j in table && table[i].device == table[j].device && table[i].name == table[j].name :: i == j
  }

  ghost predicate HasRow(table: Table, device: string, name: string)
  {
    exists i :: i in table && table[i].device == device && table[i].name == name
  }

  /** Memory and table hold the same attributes of the device. */
  ghost predicate Agree(device: string, attrs: Attrs, table: Table)
  {
    && (forall i | i in table && table[i].device == device ::
          table[i].name in attrs && RowMeaning(table[i]) == Meant(attrs[table[i].name]))
    && (forall name | name in attrs :: HasRow(table, device, name))
  }

  // ---- What a message asks for, name by name ----

  /** What becomes of one attribute: its row, and its value in memory. */
  datatype Change = Keep | Add(attr: MsgAttr) | Remove | Set(attr: MsgAttr, cols: Cols)

  function Merged(a: MsgAttr, m: MsgAttr): MsgAttr
  {
    MsgAttr(m.value,
            if m.optional == Some(false) && a.optional == Some(true) then Some(false) else a.optional,
            if m.metadata.Some? then m.metadata else a.metadata)
  }

  function ChangedCols(a: MsgAttr, m: MsgAttr): Cols
  {
    var typed := m.metadata.Some? && m.metadata != a.metadata;
    Cols(if m.value != a.value then Some(m.value) else None,
         if typed then m.metadata else None,
         if typed then Some("{}") else None,
         if m.optional == Some(false) && a.optional == Some(true) then Some(false) else None)
  }

  const NO_COLS := Cols(None, None, None, None)

  /** The change to `name`; `full` is the snapshot mode, in which attributes the
      message does not name go. */
  function ChangeTo(attrs: Attrs, msgs: MsgAttrs, full: bool, name: string): Change
  {
    if name in msgs then
      if name in attrs then
        var a := attrs[name];
        if msgs[name].None? then
          if !full && a.optional == Some(true) then Remove else Keep
        else
          var cols := ChangedCols(a, msgs[name].value);
          if cols == NO_COLS then Keep else Set(Merged(a, msgs[name].value), cols)
      else if msgs[name].Some? then Add(msgs[name].value)
      else Keep
    else if full && name in attrs then Remove
    else Keep
  }

  /** The accesses through a nil pointer: a name without attribute that memory
      does not have or that comes with a snapshot, and the "optional" of an
      attribute that was added without one. */
  predicate NilAt(attrs: Attrs, msgs: MsgAttrs, full: bool, name: string)
  {
    name in msgs &&
    if name !in attrs then msgs[name].None?
    else if msgs[name].None? then full || attrs[name].optional.None?
    else msgs[name].value.optional.Some? && attrs[name].optional.None?
  }

  ghost predicate Crashes(attrs: Attrs, msgs: MsgAttrs, full: bool)
  {
    exists name :: NilAt(attrs, msgs, full, name)
  }

  function AttrRow(device: string, name: string, a: MsgAttr): Row
  {
    Row(device, name, a.value, a.optional.None? || a.optional.value,
        if a.metadata.None? then "string" else a.metadata.value, if a.metadata.None? then "" else "{}")
  }

  /** Memory after the change. */
  function Applied(a: Option<MsgAttr>, c: Change): Option<MsgAttr>
  {
    match c
    case Keep => a
    case Add(b) => Some(b)
    case Remove => None
    case Set(b, _) => Some(b)
  }

  function Lookup(attrs: Attrs, name: string): Option<MsgAttr>
  {
    if name in attrs then Some(attrs[name]) else None
  }

  /** `after` is memory changed as the message asks. */
  ghost predicate Remembers(attrs: Attrs, msgs: MsgAttrs, full: bool, after: Attrs)
  {
    forall name :: Lookup(after, name) == Applied(Lookup(attrs, name), ChangeTo(attrs, msgs, full, name))
  }

  /** The three lists hold exactly the row changes of the names in `names`, each
      once. */
  ghost predicate AddsOk(device: string, attrs: Attrs, msgs: MsgAttrs, full: bool, names: set<string>, adds: seq<Row>)
  {
    && (forall i | 0 <= i < |adds| ::
          var c := ChangeTo(attrs, msgs, full, adds[i].name);
          adds[i].name in names && c.Add? && adds[i] == AttrRow(device, adds[i].name, c.attr))
    && (forall i, j | 0 <= i < j < |adds| :: adds[i].name != adds[j].name)
    && (forall name | name in names ::
          var c := ChangeTo(attrs, msgs, full, name); c.Add? ==> AttrRow(device, name, c.attr) in adds)
  }

  ghost predicate DeletesOk(device: string, attrs: Attrs, msgs: MsgAttrs, full: bool, names: set<string>, deletes: seq<AttrDelete>)
  {
    && (forall i | 0 <= i < |deletes| ::
          deletes[i].device == device && deletes[i].name in names && ChangeTo(attrs, msgs, full, deletes[i].name).Remove?)
    && (forall name | name in names :: ChangeTo(attrs, msgs, full, name).Remove? ==> AttrDelete(device, name) in deletes)
  }

  ghost predicate UpdatesOk(device: string, attrs: Attrs, msgs: MsgAttrs, full: bool, names: set<string>, updates: seq<AttrUpdate>)
  {
    && (forall i | 0 <= i < |updates| ::
          var c := ChangeTo(attrs, msgs, full, updates[i].name);
          updates[i].device == device && updates[i].name in names && c.Set? && updates[i].cols == c.cols)
    && (forall i, j | 0 <= i < j < |updates| :: updates[i].name != updates[j].name)
    && (forall name | name in names ::
          var c := ChangeTo(attrs, msgs, full, name); c.Set? ==> AttrUpdate(device, name, c.cols) in updates)
  }

  // ---- What the message asks for, in its own terms ----

  /** A carried attribute: its value, and its metadata if it has any, are the
      message's; "optional" turns from true to false exactly when the message says
      false, and stays otherwise; a new attribute is the message's own. */
  predicate TakenOver(before: Option<MsgAttr>, m: MsgAttr, after: Option<MsgAttr>)
  {
    && after.Some? && after.value.value == m.value
    && (m.metadata.Some? ==> after.value.metadata == m.metadata)
    && (before.None? ==> after.value == m)
    && (before.Some? ==>
          && (m.metadata.None? ==> after.value.metadata == before.value.metadata)
          && after.value.optional == if before.value.optional == Some(true) && m.optional == Some(false) then Some(false)
                                     else before.value.optional)
  }

  /** One name after the message: a carried attribute is taken over; a name without
      attribute goes exactly when it was optional; one that the message does not
      have stays, but in snapshot mode goes. */
  ghost predicate Asked(attrs: Attrs, msgs: MsgAttrs, full: bool, after: Attrs, name: string)
  {
    && (name in msgs && msgs[name].Some? ==> TakenOver(Lookup(attrs, name), msgs[name].value, Lookup(after, name)))
    && (name in msgs && msgs[name].None? && name in attrs ==>
          if attrs[name].optional == Some(true) then name !in after else name in after && after[name] == attrs[name])
    && (name !in msgs && !full ==> Lookup(after, name) == Lookup(attrs, name))
    && (name !in msgs && full ==> name !in after)
  }

  ghost predicate AsAsked(attrs: Attrs, msgs: MsgAttrs, full: bool, after: Attrs)
  {
    forall name :: Asked(attrs, msgs, full, after, name)
  }

  lemma RemembersAsAsked(attrs: Attrs, msgs: MsgAttrs, full: bool, after: Attrs)
    requires Remembers(attrs, msgs, full, after) && !Crashes(attrs, msgs, full)
    ensures AsAsked(attrs, msgs, full, after)
  {
    forall name ensures Asked(attrs, msgs, full, after, name) {
      assert !NilAt(attrs, msgs, full, name);
      assert Lookup(after, name) == Applied(Lookup(attrs, name), ChangeTo(attrs, msgs, full, name));
    }
  }

  /** The process comes down exactly when the message has a name without attribute
      that memory does not have, or has without "optional", or that comes with a
      snapshot; or an "optional" for an attribute that memory has without. */
  lemma CrashesIff(attrs: Attrs, msgs: MsgAttrs, full: bool)
    ensures Crashes(attrs, msgs, full) <==>
              exists name | name in msgs ::
                || (msgs[name].None? && (full || name !in attrs || attrs[name].optional.None?))
                || (msgs[name].Some? && msgs[name].value.optional.Some? && name in attrs && attrs[name].optional.None?)
  {
    if Crashes(attrs, msgs, full) {
      var name :| NilAt(attrs, msgs, full, name);
    }
    forall name | name in msgs && msgs[name].None? && (full || name !in attrs || attrs[name].optional.None?)
      ensures NilAt(attrs, msgs, full, name) { }
    forall name | name in msgs && msgs[name].Some? && msgs[name].value.optional.Some? && name in attrs && attrs[name].optional.None?
      ensures NilAt(attrs, msgs, full, name) { }
  }

  // ---- DealMsgAttr ----

  datatype Deal = Deal(attrs: Attrs, adds: seq<Row>, deletes: seq<AttrDelete>, updates: seq<AttrUpdate>)

  /** Where the loop over the message stands when `names` have been visited. */
  ghost predicate Midway(device: string, attrs: Attrs, msgs: MsgAttrs, full: bool, names: set<string>, d: Deal)
  {
    && Partly(attrs, msgs, full, names, d.attrs)
    && AddsOk(device, attrs, msgs, full, names, d.adds)
    && DeletesOk(device, attrs, msgs, full, names, d.deletes)
    && UpdatesOk(device, attrs, msgs, full, names, d.updates)
  }

  ghost predicate Partly(attrs: Attrs, msgs: MsgAttrs, full: bool, names: set<string>, after: Attrs)
  {
    forall name :: Lookup(after, name) ==
      if name in names then Applied(Lookup(attrs, name), ChangeTo(attrs, msgs, full, name)) else Lookup(attrs, name)
  }

  /** Visiting one more name: memory and one list change as that name asks. */
  function Visited(device: string, name: string, c: Change, d: Deal): Deal
  {
    match c
    case Keep => d
    case Add(a) => d.(attrs := d.attrs[name := a], adds := d.adds + [AttrRow(device, name, a)])
    case Remove => d.(attrs := d.attrs - {name}, deletes := d.deletes + [AttrDelete(device, name)])
    case Set(a, cols) => d.(attrs := d.attrs[name := a], updates := d.updates + [AttrUpdate(device, name, cols)])
  }

  lemma VisitedAdds(device: string, attrs: Attrs, msgs: MsgAttrs, full: bool, names: set<string>, d: Deal, name: string)
    requires AddsOk(device, attrs, msgs, full, names, d.adds) && name !in names
    ensures AddsOk(device, attrs, msgs, full, names + {name},
                   Visited(device, name, ChangeTo(attrs, msgs, full, name), d).adds)
  {
    hide ChangeTo;
    var c := ChangeTo(attrs, msgs, full, name);
    match c
    case Keep =>
    case Add(_) =>
    case Remove =>
    case Set(_, _) =>
  }

  lemma VisitedDeletes(device: string, attrs: Attrs, msgs: MsgAttrs, full: bool, names: set<string>, d: Deal, name: string)
    requires DeletesOk(device, attrs, msgs, full, names, d.deletes) && name !in names
    ensures DeletesOk(device, attrs, msgs, full, names + {name},
                   Visited(device, name, ChangeTo(attrs, msgs, full, name), d).deletes)
  {
    hide ChangeTo;
    var c := ChangeTo(attrs, msgs, full, name);
    match c
    case Keep =>
    case Add(_) =>
    case Remove =>
    case Set(_, _) =>
  }

  lemma VisitedUpdates(device: string, attrs: Attrs, msgs: MsgAttrs, full: bool, names: set<string>, d: Deal, name: string)
    requires UpdatesOk(device, attrs, msgs, full, names, d.updates) && name !in names
    ensures UpdatesOk(device, attrs, msgs, full, names + {name},
                   Visited(device, name, ChangeTo(attrs, msgs, full, name), d).updates)
  {
    hide ChangeTo;
    var c := ChangeTo(attrs, msgs, full, name);
    match c
    case Keep =>
    case Add(_) =>
    case Remove =>
    case Set(_, _) =>
  }

  lemma VisitedPartly(device: string, attrs: Attrs, msgs: MsgAttrs, full: bool, names: set<string>, d: Deal, name: string)
    requires Partly(attrs, msgs, full, names, d.attrs) && name !in names
    ensures Partly(attrs, msgs, full, names + {name}, Visited(device, name, ChangeTo(attrs, msgs, full, name), d).attrs)
  {
    hide ChangeTo, AttrRow;
    assert Lookup(d.attrs, name) == Lookup(attrs, name);
  }

  lemma VisitedMidway(device: string, attrs: Attrs, msgs: MsgAttrs, full: bool, names: set<string>, d: Deal, name: string)
    requires Midway(device, attrs, msgs, full, names, d) && name !in names
    ensures Midway(device, attrs, msgs, full, names + {name}, Visited(device, name, ChangeTo(attrs, msgs, full, name), d))
  {
    hide ChangeTo, Partly, AddsOk, DeletesOk, UpdatesOk, Visited;
    VisitedPartly(device, attrs, msgs, full, names, d, name);
    VisitedAdds(device, attrs, msgs, full, names, d, name);
    VisitedDeletes(device, attrs, msgs, full, names, d, name);
    VisitedUpdates(device, attrs, msgs, full, names, d, name);
  }

  /** The attribute that memory has and the message carries: field by field,
      with the columns to write. */
  method MergeExisting(attr: MsgAttr, msgAttr: MsgAttr) returns (crashed: bool, merged: MsgAttr, cols: Cols, isChange: bool)
    ensures crashed <==> msgAttr.optional.Some? && attr.optional.None?
    ensures !crashed ==> merged == Merged(attr, msgAttr) && cols == ChangedCols(attr, msgAttr)
    ensures !crashed ==> (isChange <==> cols != NO_COLS)
    ensures !crashed && !isChange ==> merged == attr
  {
    crashed, merged, cols, isChange := false, attr, NO_COLS, false;
    if attr.value != msgAttr.value {
      merged := merged.(value := msgAttr.value);
      cols := cols.(value := Some(msgAttr.value));
      isChange := true;
    }
    if msgAttr.metadata.Some? {
      if msgAttr.metadata != attr.metadata {
        cols := cols.(attrType := msgAttr.metadata, metadata := Some("{}"));
        merged := merged.(metadata := msgAttr.metadata);
        isChange := true;
      }
    }
    if msgAttr.optional.Some? {
      if attr.optional.None? {
        return true, merged, cols, isChange;
      }
      if msgAttr.optional.value != attr.optional.value && attr.optional.value {
        var optional := msgAttr.optional.value;
        cols := cols.(optional := Some(optional));
        merged := merged.(optional := Some(optional));
        isChange := true;
      }
    }
  }

  /** One turn of the loop over the message. */
  method DealOne(device: string, ghost attrs: Attrs, msgs: MsgAttrs, full: bool, key: string, d: Deal)
      returns (crashed: bool, r: Deal)
    requires key in msgs && Lookup(d.attrs, key) == Lookup(attrs, key)
    ensures crashed <==> NilAt(attrs, msgs, full, key)
    ensures !crashed ==> r == Visited(device, key, ChangeTo(attrs, msgs, full, key), d)
  {
    crashed, r := false, d;
    if key in d.attrs {
      var attr := d.attrs[key];
      if msgs[key].None? && !full {
        if attr.optional.None? {
          return true, d;
        }
        if attr.optional.value {
          r := d.(deletes := d.deletes + [AttrDelete(device, key)], attrs := d.attrs - {key});
        }
        return;
      }
      if msgs[key].None? {
        return true, d;
      }
      var merged, cols, isChange;
      crashed, merged, cols, isChange := MergeExisting(attr, msgs[key].value);
      if crashed {
        return;
      }
      if isChange {
        r := d.(attrs := d.attrs[key := merged], updates := d.updates + [AttrUpdate(device, key, cols)]);
      }
    } else {
      if msgs[key].None? {
        return true, d;
      }
      var msgAttr := msgs[key].value;
      var row := Row(device, key, msgAttr.value,
                     if msgAttr.optional.Some? then msgAttr.optional.value else true,
                     if msgAttr.metadata.Some? then msgAttr.metadata.value else "string",
                     if msgAttr.metadata.Some? then "{}" else "");
      r := d.(adds := d.adds + [row], attrs := d.attrs[key := msgAttr]);
    }
  }

  /** `DealMsgAttr`: memory and the three lists, for every order of the names;
      it crashes exactly on the nil accesses. */
  method DealMsgAttr(device: string, attrs: Attrs, msgs: MsgAttrs, full: bool) returns (crashed: bool, d: Deal)
    ensures crashed <==> Crashes(attrs, msgs, full)
    ensures !crashed ==> Remembers(attrs, msgs, full, d.attrs) && AsAsked(attrs, msgs, full, d.attrs)
    ensures !crashed ==> Midway(device, attrs, msgs, full, msgs.Keys + attrs.Keys, d)
  {
    hide ChangeTo, Visited, AddsOk, DeletesOk, UpdatesOk, Partly, Remembers, AsAsked;
    d := Deal(attrs, [], [], []);
    var todo := msgs.Keys;
    Start(device, attrs, msgs, full);
    while todo != {}
      invariant todo <= msgs.Keys
      invariant Midway(device, attrs, msgs, full, msgs.Keys - todo, d)
      invariant forall name | name in msgs && name !in todo :: !NilAt(attrs, msgs, full, name)
    {
      var key :| key in todo;
      Unvisited(attrs, msgs, full, msgs.Keys - todo, d.attrs, key);
      var next;
      crashed, next := DealOne(device, attrs, msgs, full, key, d);
      if crashed {
        return;
      }
      VisitedMidway(device, attrs, msgs, full, msgs.Keys - todo, d, key);
      assert msgs.Keys - (todo - {key}) == msgs.Keys - todo + {key};
      d := next;
      todo := todo - {key};
    }
    crashed := false;
    assert msgs.Keys - {} == msgs.Keys;
    if full {
      d := DropUnnamed(device, attrs, msgs, d);
    } else {
      RestKept(device, attrs, msgs, d);
    }
    AllVisited(device, attrs, msgs, full, d);
    RemembersAsAsked(attrs, msgs, full, d.attrs);
  }

  lemma Start(device: string, attrs: Attrs, msgs: MsgAttrs, full: bool)
    ensures Midway(device, attrs, msgs, full, msgs.Keys - msgs.Keys, Deal(attrs, [], [], []))
  {
  }

  lemma Unvisited(attrs: Attrs, msgs: MsgAttrs, full: bool, names: set<string>, after: Attrs, name: string)
    requires Partly(attrs, msgs, full, names, after) && name !in names
    ensures Lookup(after, name) == Lookup(attrs, name)
  {
  }

  /** Outside snapshot mode, names the message does not have stay. */
  lemma RestKept(device: string, attrs: Attrs, msgs: MsgAttrs, d: Deal)
    requires Midway(device, attrs, msgs, false, msgs.Keys, d)
    ensures Midway(device, attrs, msgs, false, msgs.Keys + attrs.Keys, d)
  {
  }

  lemma AllVisited(device: string, attrs: Attrs, msgs: MsgAttrs, full: bool, d: Deal)
    requires Midway(device, attrs, msgs, full, msgs.Keys + attrs.Keys, d)
    ensures Remembers(attrs, msgs, full, d.attrs)
  {
    hide AddsOk, DeletesOk, UpdatesOk;
  }

  lemma NoDeletesYet(device: string, attrs: Attrs, msgs: MsgAttrs, d: Deal)
    requires Midway(device, attrs, msgs, true, msgs.Keys, d)
    ensures d.deletes == []
  {
    hide AddsOk, UpdatesOk, Partly;
    assert |d.deletes| > 0 ==> ChangeTo(attrs, msgs, true, d.deletes[0].name).Remove?;
  }

  lemma UnnamedIsRemoved(device: string, attrs: Attrs, msgs: MsgAttrs, d: Deal, key: string)
    requires Midway(device, attrs, msgs, true, msgs.Keys, d) && key !in msgs
    ensures key in d.attrs <==> key in attrs
    ensures key in attrs ==> ChangeTo(attrs, msgs, true, key) == Remove
  {
    Unvisited(attrs, msgs, true, msgs.Keys, d.attrs, key);
  }

  function Names(deletes: seq<AttrDelete>): set<string>
  {
    set x | x in deletes :: x.name
  }

  /** The second half of snapshot mode: first the deletes are listed, then they
      are taken out of memory. */
  method DropUnnamed(device: string, attrs: Attrs, msgs: MsgAttrs, d: Deal) returns (r: Deal)
    requires Midway(device, attrs, msgs, true, msgs.Keys, d)
    ensures Midway(device, attrs, msgs, true, msgs.Keys + attrs.Keys, r)
  {
    hide Midway;
    ghost var v;
    r, v := ListUnnamed(device, attrs, msgs, d);
    var deletes := r.deletes;
    for i := 0 to |deletes|
      invariant r == v.(attrs := d.attrs - Names(deletes[..i]))
    {
      assert Names(deletes[..i + 1]) == Names(deletes[..i]) + {deletes[i].name};
      r := r.(attrs := r.attrs - {deletes[i].name});
    }
    assert deletes[..|deletes|] == deletes;
  }

  /** The listing loop; `v` is the deal with the listed names out of memory. */
  method ListUnnamed(device: string, attrs: Attrs, msgs: MsgAttrs, d: Deal) returns (r: Deal, ghost v: Deal)
    requires Midway(device, attrs, msgs, true, msgs.Keys, d)
    ensures Midway(device, attrs, msgs, true, msgs.Keys + attrs.Keys, v)
    ensures r == v.(attrs := d.attrs) && v.attrs == d.attrs - Names(r.deletes)
  {
    hide ChangeTo, Midway;
    NoDeletesYet(device, attrs, msgs, d);
    r, v := d, d;
    ghost var seen := msgs.Keys;
    var todo := d.attrs.Keys;
    while todo != {}
      invariant todo <= d.attrs.Keys && seen == msgs.Keys + (d.attrs.Keys - todo)
      invariant Midway(device, attrs, msgs, true, seen, v)
      invariant r == v.(attrs := d.attrs) && v.attrs == d.attrs - Names(r.deletes)
    {
      var key :| key in todo;
      if key !in msgs {
        UnnamedIsRemoved(device, attrs, msgs, d, key);
        VisitedMidway(device, attrs, msgs, true, seen, v, key);
        v := Visited(device, key, Remove, v);
        assert Names(r.deletes + [AttrDelete(device, key)]) == Names(r.deletes) + {key};
        r := r.(deletes := r.deletes + [AttrDelete(device, key)]);
        seen := seen + {key};
      }
      todo := todo - {key};
      assert seen == msgs.Keys + (d.attrs.Keys - todo);
    }
    assert seen == msgs.Keys + attrs.Keys by {
      forall key ensures key in seen <==> key in msgs.Keys + attrs.Keys {
        if key !in msgs { UnnamedIsRemoved(device, attrs, msgs, d, key); }
      }
    }
  }
}
