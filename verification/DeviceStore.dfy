/** The device_attr table, its transactions, and their agreement with memory. */
module DeviceStore {
  import opened DeviceAttr

  // ---- Row operations and the transaction ----

  /** Rows inserted one after the other, each under the next row id. */
  function Inserted(table: Table, next: nat, adds: seq<Row>): Table
  {
    if adds == [] then table
    else Inserted(table, next, adds[..|adds| - 1])[next + |adds| - 1 := adds[|adds| - 1]]
  }

  function Deleted(table: Table, deletes: seq<AttrDelete>): Table
  {
    map i | i in table && AttrDelete(table[i].device, table[i].name) !in deletes :: table[i]
  }

  function WithCols(r: Row, c: Cols): Row
  {
    Row(r.device, r.name,
        if c.value.Some? then c.value.value else r.value,
        if c.optional.Some? then c.optional.value else r.optional,
        if c.attrType.Some? then c.attrType.value else r.attrType,
        if c.metadata.Some? then c.metadata.value else r.metadata)
  }

  predicate Matches(r: Row, u: AttrUpdate)
  {
    r.device == u.device && r.name == u.name
  }

  function UpdatedRow(r: Row, updates: seq<AttrUpdate>): Row
  {
    if updates == [] then r
    else
      var before := UpdatedRow(r, updates[..|updates| - 1]);
      var u := updates[|updates| - 1];
      if Matches(before, u) then WithCols(before, u.cols) else before
  }

  function Updated(table: Table, updates: seq<AttrUpdate>): Table
  {
    map i | i in table :: UpdatedRow(table[i], updates)
  }

  function Committed(table: Table, next: nat, adds: seq<Row>, deletes: seq<AttrDelete>, updates: seq<AttrUpdate>): Table
  {
    Updated(Deleted(Inserted(table, next, adds), deletes), updates)
  }

  class AttrDb {
    var table: Table
    var next: nat

    constructor ()
      ensures table == map[] && next == 0
    {
      table, next := map[], 0;
    }

    /** `INSERT` under a new row id. */
    method Save(row: Row)
      modifies this
      ensures table == old(table)[old(next) := row] && next == old(next) + 1
    {
      table := table[next := row];
      next := next + 1;
    }

    /** `DELETE` of all rows of one attribute. */
    method Delete(d: AttrDelete)
      modifies this`table
      ensures table == Deleted(old(table), [d])
    {
      table := map i | i in table && !(table[i].device == d.device && table[i].name == d.name) :: table[i];
    }

    /** `UPDATE` of the given columns of all rows of one attribute. */
    method UpdateFields(u: AttrUpdate)
      modifies this`table
      ensures table.Keys == old(table).Keys
      ensures forall i | i in table ::
                var r, c := old(table)[i], u.cols;
                if r.device == u.device && r.name == u.name then
                  table[i] == Row(r.device, r.name,
                                  if c.value.Some? then c.value.value else r.value,
                                  if c.optional.Some? then c.optional.value else r.optional,
                                  if c.attrType.Some? then c.attrType.value else r.attrType,
                                  if c.metadata.Some? then c.metadata.value else r.metadata)
                else table[i] == r
    {
      table := map i | i in table :: if Matches(table[i], u) then WithCols(table[i], u.cols) else table[i];
    }

    /** The three loops of `DeviceAttrTrans`; each stops at the failing statement. */
    method SaveAll(adds: seq<Row>, failing: nat) returns (ok: bool)
      modifies this
      ensures ok <==> failing >= |adds|
      ensures ok ==> table == Inserted(old(table), old(next), adds) && next == old(next) + |adds|
    {
      for i := 0 to |adds|
        invariant table == Inserted(old(table), old(next), adds[..i]) && next == old(next) + i && failing >= i
      {
        if failing == i {
          return false;
        }
        Save(adds[i]);
        assert adds[..i + 1][..i] == adds[..i];
      }
      assert adds[..|adds|] == adds;
      return true;
    }

    method DeleteAll(deletes: seq<AttrDelete>, failing: nat) returns (ok: bool)
      modifies this`table
      ensures ok <==> failing >= |deletes|
      ensures ok ==> table == Deleted(old(table), deletes)
    {
      for i := 0 to |deletes|
        invariant table == Deleted(old(table), deletes[..i]) && failing >= i
      {
        if failing == i {
          return false;
        }
        Delete(deletes[i]);
        assert deletes[..i + 1] == deletes[..i] + [deletes[i]];
      }
      assert deletes[..|deletes|] == deletes;
      return true;
    }

    method UpdateAll(updates: seq<AttrUpdate>, failing: nat) returns (ok: bool)
      modifies this`table
      ensures ok <==> failing >= |updates|
      ensures ok ==> table == Updated(old(table), updates)
    {
      for i := 0 to |updates|
        invariant table == Updated(old(table), updates[..i]) && failing >= i
      {
        if failing == i {
          return false;
        }
        UpdateFields(updates[i]);
        assert updates[..i + 1][..i] == updates[..i];
      }
      assert updates[..|updates|] == updates;
      return true;
    }

    /** `DeviceAttrTrans`: all row changes are made, or, when the statement
        numbered `failing` fails, none is. */
    method DeviceAttrTrans(adds: seq<Row>, deletes: seq<AttrDelete>, updates: seq<AttrUpdate>, failing: nat)
        returns (ok: bool)
      modifies this
      ensures ok <==> failing >= |adds| + |deletes| + |updates|
      ensures ok ==> table == Committed(old(table), old(next), adds, deletes, updates) && next == old(next) + |adds|
      ensures !ok ==> table == old(table) && next == old(next)
    {
      hide Inserted, Deleted, Updated;
      var table0, next0 := table, next;
      ok := SaveAll(adds, failing);
      if ok {
        ok := DeleteAll(deletes, failing - |adds|);
      }
      if ok {
        ok := UpdateAll(updates, failing - |adds| - |deletes|);
      }
      if !ok {
        table, next := table0, next0;
      }
    }
  }

  // ---- Row by row ----

  ghost predicate IdsBelow(table: Table, next: nat)
  {
    forall i | i in table :: i < next
  }

  lemma {:induction false} InsertedAt(table: Table, next: nat, adds: seq<Row>, i: nat)
    requires IdsBelow(table, next)
    ensures i in Inserted(table, next, adds) <==> i in table || next <= i < next + |adds|
    ensures i in table ==> Inserted(table, next, adds)[i] == table[i]
    ensures next <= i < next + |adds| ==> Inserted(table, next, adds)[i] == adds[i - next]
  {
    if adds != [] {
      var front := adds[..|adds| - 1];
      InsertedAt(table, next, front, i);
      assert next <= i < next + |front| ==> front[i - next] == adds[i - next];
    }
  }

  lemma {:induction false} UpdatedRowAt(r: Row, updates: seq<AttrUpdate>)
    ensures UpdatedRow(r, updates).device == r.device && UpdatedRow(r, updates).name == r.name
    ensures (forall j | 0 <= j < |updates| :: !Matches(r, updates[j])) ==> UpdatedRow(r, updates) == r
  {
    if updates != [] {
      var front := updates[..|updates| - 1];
      UpdatedRowAt(r, front);
      assert forall j | 0 <= j < |front| :: front[j] == updates[j];
    }
  }

  /** With one update per attribute, a row gets its own. */
  lemma {:induction false} UpdatedRowOnce(r: Row, updates: seq<AttrUpdate>, k: nat)
    requires k < |updates| && Matches(r, updates[k])
    requires forall i, j | 0 <= i < j < |updates| :: updates[i].name != updates[j].name
    ensures UpdatedRow(r, updates) == WithCols(r, updates[k].cols)
  {
    var front := updates[..|updates| - 1];
    UpdatedRowAt(r, front);
    if k < |front| { UpdatedRowOnce(r, front, k); }
  }

  /** The row an id had before deletes and updates. */
  function Origin(table: Table, next: nat, adds: seq<Row>, i: nat): Row
    requires i in table || next <= i < next + |adds|
  {
    if i in table then table[i] else adds[i - next]
  }

  lemma CommittedAt(table: Table, next: nat, adds: seq<Row>, deletes: seq<AttrDelete>, updates: seq<AttrUpdate>, i: nat)
    requires IdsBelow(table, next)
    ensures var t := Committed(table, next, adds, deletes, updates);
            i in t <==> (i in table || next <= i < next + |adds|) &&
                        var r := Origin(table, next, adds, i); AttrDelete(r.device, r.name) !in deletes
    ensures var t := Committed(table, next, adds, deletes, updates);
            i in t ==> t[i] == UpdatedRow(Origin(table, next, adds, i), updates)
  {
    hide UpdatedRow;
    InsertedAt(table, next, adds, i);
  }

  // ---- Agreement ----

  /** Each change means the same to a row and to memory. */
  lemma ChangeMeaning(device: string, attrs: Attrs, msgs: MsgAttrs, full: bool, name: string)
    ensures var c := ChangeTo(attrs, msgs, full, name);
            match c
            case Keep => true
            case Add(a) => name !in attrs && RowMeaning(AttrRow(device, name, a)) == Meant(a)
            case Remove => name in attrs
            case Set(b, cols) =>
              name in attrs && forall r: Row | RowMeaning(r) == Meant(attrs[name]) :: RowMeaning(WithCols(r, cols)) == Meant(b)
  {
  }

  /** A deal of a message, complete. */
  ghost predicate DealOf(device: string, attrs: Attrs, msgs: MsgAttrs, full: bool, d: Deal)
  {
    Midway(device, attrs, msgs, full, msgs.Keys + attrs.Keys, d)
  }

  function After(table: Table, next: nat, d: Deal): Table
  {
    Committed(table, next, d.adds, d.deletes, d.updates)
  }

  /** A row of the table is deleted, updated or kept as its name's change says. */
  lemma OldRowAfter(device: string, attrs: Attrs, msgs: MsgAttrs, full: bool, d: Deal, table: Table, next: nat, i: nat)
    requires DealOf(device, attrs, msgs, full, d) && IdsBelow(table, next) && i in table
    requires table[i].device == device && table[i].name in attrs
    ensures var c := ChangeTo(attrs, msgs, full, table[i].name);
            && (c.Remove? <==> i !in After(table, next, d))
            && (c.Set? ==> After(table, next, d)[i] == WithCols(table[i], c.cols))
            && (c.Keep? ==> After(table, next, d)[i] == table[i])
  {
    hide ChangeTo, UpdatedRow, Committed, AddsOk, Partly;
    var r := table[i];
    var c := ChangeTo(attrs, msgs, full, r.name);
    CommittedAt(table, next, d.adds, d.deletes, d.updates, i);
    UpdatedRowAt(r, d.updates);
    if c.Set? {
      var k :| 0 <= k < |d.updates| && d.updates[k] == AttrUpdate(device, r.name, c.cols);
      UpdatedRowOnce(r, d.updates, k);
    }
  }

  /** An added row arrives as it is. */
  lemma NewRowAfter(device: string, attrs: Attrs, msgs: MsgAttrs, full: bool, d: Deal, table: Table, next: nat, k: nat)
    requires DealOf(device, attrs, msgs, full, d) && IdsBelow(table, next) && k < |d.adds|
    ensures next + k in After(table, next, d) && After(table, next, d)[next + k] == d.adds[k]
  {
    hide ChangeTo, UpdatedRow, Committed, Partly;
    CommittedAt(table, next, d.adds, d.deletes, d.updates, next + k);
    UpdatedRowAt(d.adds[k], d.updates);
  }

  /** Rows of other devices are not touched, and none appears. */
  lemma OtherRowsAfter(device: string, attrs: Attrs, msgs: MsgAttrs, full: bool, d: Deal, table: Table, next: nat, i: nat)
    requires DealOf(device, attrs, msgs, full, d) && IdsBelow(table, next)
    ensures i in table && table[i].device != device ==> i in After(table, next, d) && After(table, next, d)[i] == table[i]
    ensures i in After(table, next, d) ==>
              || (i in table && After(table, next, d)[i].device == table[i].device && After(table, next, d)[i].name == table[i].name)
              || (next <= i < next + |d.adds| && After(table, next, d)[i] == d.adds[i - next] && d.adds[i - next].device == device)
  {
    hide ChangeTo, UpdatedRow, Committed, Partly;
    CommittedAt(table, next, d.adds, d.deletes, d.updates, i);
    if i in table { UpdatedRowAt(table[i], d.updates); }
    if next <= i < next + |d.adds| { UpdatedRowAt(d.adds[i - next], d.updates); }
  }

  lemma RememberedAs(attrs: Attrs, msgs: MsgAttrs, full: bool, d: Deal, device: string, name: string)
    requires DealOf(device, attrs, msgs, full, d)
    ensures Lookup(d.attrs, name) == Applied(Lookup(attrs, name), ChangeTo(attrs, msgs, full, name))
  {
    hide AddsOk, DeletesOk, UpdatesOk;
    AllVisited(device, attrs, msgs, full, d);
  }

  lemma RowAgrees(device: string, attrs: Attrs, msgs: MsgAttrs, full: bool, d: Deal, table: Table, next: nat, i: nat)
    requires DealOf(device, attrs, msgs, full, d) && IdsBelow(table, next) && Agree(device, attrs, table)
    requires i in After(table, next, d) && After(table, next, d)[i].device == device
    ensures var r := After(table, next, d)[i]; r.name in d.attrs && RowMeaning(r) == Meant(d.attrs[r.name])
  {
    hide ChangeTo, After, Partly, DeletesOk, UpdatesOk, RowMeaning, Meant, AttrRow, WithCols;
    OtherRowsAfter(device, attrs, msgs, full, d, table, next, i);
    var name := After(table, next, d)[i].name;
    RememberedAs(attrs, msgs, full, d, device, name);
    ChangeMeaning(device, attrs, msgs, full, name);
    if i in table {
      OldRowAfter(device, attrs, msgs, full, d, table, next, i);
    }
  }

  lemma NameHasRow(device: string, attrs: Attrs, msgs: MsgAttrs, full: bool, d: Deal, table: Table, next: nat, name: string)
    requires DealOf(device, attrs, msgs, full, d) && IdsBelow(table, next) && Agree(device, attrs, table)
    requires name in d.attrs
    ensures HasRow(After(table, next, d), device, name)
  {
    hide ChangeTo, After, Partly, DeletesOk, UpdatesOk, RowMeaning, Meant, WithCols;
    RememberedAs(attrs, msgs, full, d, device, name);
    ChangeMeaning(device, attrs, msgs, full, name);
    var c := ChangeTo(attrs, msgs, full, name);
    if name in attrs {
      var i :| i in table && table[i].device == device && table[i].name == name;
      OldRowAfter(device, attrs, msgs, full, d, table, next, i);
      OtherRowsAfter(device, attrs, msgs, full, d, table, next, i);
    } else {
      AddListed(device, attrs, msgs, full, d, name);
      var k :| 0 <= k < |d.adds| && d.adds[k] == AttrRow(device, name, c.attr);
      NewRowAfter(device, attrs, msgs, full, d, table, next, k);
    }
  }

  lemma AddListed(device: string, attrs: Attrs, msgs: MsgAttrs, full: bool, d: Deal, name: string)
    requires DealOf(device, attrs, msgs, full, d) && ChangeTo(attrs, msgs, full, name).Add?
    ensures AttrRow(device, name, ChangeTo(attrs, msgs, full, name).attr) in d.adds
  {
    hide DeletesOk, UpdatesOk, Partly;
  }

  /** After a committed transaction memory and table agree again. */
  lemma CommitAgrees(device: string, attrs: Attrs, msgs: MsgAttrs, full: bool, d: Deal, table: Table, next: nat)
    requires DealOf(device, attrs, msgs, full, d) && IdsBelow(table, next) && Agree(device, attrs, table)
    ensures Agree(device, d.attrs, After(table, next, d))
  {
    hide DealOf, After, RowMeaning, Meant, HasRow;
    var t := After(table, next, d);
    forall i | i in t && t[i].device == device
      ensures t[i].name in d.attrs && RowMeaning(t[i]) == Meant(d.attrs[t[i].name])
    {
      RowAgrees(device, attrs, msgs, full, d, table, next, i);
    }
    forall name | name in d.attrs ensures HasRow(t, device, name) {
      NameHasRow(device, attrs, msgs, full, d, table, next, name);
    }
  }

  /** The rows afterwards are what the message asks for: a carried attribute has a
      row with its value, and its type if it has one; a name that is gone from
      memory has none. */
  lemma CommitCarries(device: string, attrs: Attrs, msgs: MsgAttrs, full: bool, d: Deal, table: Table, next: nat, name: string)
    requires DealOf(device, attrs, msgs, full, d) && IdsBelow(table, next) && Agree(device, attrs, table)
    requires !Crashes(attrs, msgs, full)
    ensures AsAsked(attrs, msgs, full, d.attrs)
    ensures HasRow(After(table, next, d), device, name) <==> name in d.attrs
    ensures name in msgs && msgs[name].Some? ==> HasRow(After(table, next, d), device, name)
    ensures forall i | i in After(table, next, d) && After(table, next, d)[i].device == device
                       && After(table, next, d)[i].name == name && name in msgs && msgs[name].Some? ::
              var m := msgs[name].value;
              && After(table, next, d)[i].value == m.value
              && (m.metadata.Some? ==> After(table, next, d)[i].attrType == m.metadata.value)
              && (name !in attrs ==> After(table, next, d)[i].metadata == if m.metadata.Some? then "{}" else "")
              && (name in attrs && m.metadata.Some? && m.metadata != attrs[name].metadata ==> After(table, next, d)[i].metadata == "{}")
  {
    hide DealOf, After, Crashes, Remembers;
    forall i | i in After(table, next, d) && After(table, next, d)[i].device == device
               && After(table, next, d)[i].name == name && name in msgs && msgs[name].Some?
      ensures name !in attrs ==> After(table, next, d)[i].metadata == if msgs[name].value.metadata.Some? then "{}" else ""
      ensures name in attrs && msgs[name].value.metadata.Some? && msgs[name].value.metadata != attrs[name].metadata ==>
                After(table, next, d)[i].metadata == "{}"
    {
      CarriedMetadata(device, attrs, msgs, full, d, table, next, i);
    }
    CommitAgrees(device, attrs, msgs, full, d, table, next);
    assert Remembers(attrs, msgs, full, d.attrs) by { DealRemembers(device, attrs, msgs, full, d); }
    RemembersAsAsked(attrs, msgs, full, d.attrs);
    if name in msgs && msgs[name].Some? {
      assert Asked(attrs, msgs, full, d.attrs, name);
    }
  }

  lemma CarriedMetadata(device: string, attrs: Attrs, msgs: MsgAttrs, full: bool, d: Deal, table: Table, next: nat, i: nat)
    requires DealOf(device, attrs, msgs, full, d) && IdsBelow(table, next) && Agree(device, attrs, table)
    requires i in After(table, next, d) && After(table, next, d)[i].device == device
    requires After(table, next, d)[i].name in msgs && msgs[After(table, next, d)[i].name].Some?
    ensures var r := After(table, next, d)[i]; var m := msgs[r.name].value;
            && (r.name !in attrs ==> r.metadata == if m.metadata.Some? then "{}" else "")
            && (r.name in attrs && m.metadata.Some? && m.metadata != attrs[r.name].metadata ==> r.metadata == "{}")
  {
    hide After, Partly, DeletesOk, UpdatesOk, RowMeaning, Meant;
    OtherRowsAfter(device, attrs, msgs, full, d, table, next, i);
    ChangeMeaning(device, attrs, msgs, full, After(table, next, d)[i].name);
    if i in table {
      OldRowAfter(device, attrs, msgs, full, d, table, next, i);
    }
  }

  lemma DealRemembers(device: string, attrs: Attrs, msgs: MsgAttrs, full: bool, d: Deal)
    requires DealOf(device, attrs, msgs, full, d)
    ensures Remembers(attrs, msgs, full, d.attrs)
  {
    hide Midway, Remembers;
    AllVisited(device, attrs, msgs, full, d);
  }

  /** ... of every other device as before, and no attribute has two rows. */
  lemma CommitFrame(device: string, attrs: Attrs, msgs: MsgAttrs, full: bool, d: Deal, table: Table, next: nat)
    requires DealOf(device, attrs, msgs, full, d) && IdsBelow(table, next) && Agree(device, attrs, table) && UniqueRows(table)
    ensures UniqueRows(After(table, next, d)) && IdsBelow(After(table, next, d), next + |d.adds|)
    ensures forall other, a: Attrs | other != device && Agree(other, a, table) :: Agree(other, a, After(table, next, d))
  {
    hide ChangeTo, After, Partly, DeletesOk, UpdatesOk, RowMeaning, Meant, AttrRow;
    var t := After(table, next, d);
    forall i | i in t ensures i < next + |d.adds| { OtherRowsAfter(device, attrs, msgs, full, d, table, next, i); }
    forall i, j | i in t && j in t && t[i].device == t[j].device && t[i].name == t[j].name ensures i == j {
      OtherRowsAfter(device, attrs, msgs, full, d, table, next, i);
      OtherRowsAfter(device, attrs, msgs, full, d, table, next, j);
      ChangeMeaning(device, attrs, msgs, full, t[i].name);
    }
    forall other, a: Attrs | other != device && Agree(other, a, table) ensures Agree(other, a, t) {
      OthersAgree(device, attrs, msgs, full, d, table, next, other, a);
    }
  }

  lemma OthersAgree(device: string, attrs: Attrs, msgs: MsgAttrs, full: bool, d: Deal, table: Table, next: nat,
                    other: string, a: Attrs)
    requires DealOf(device, attrs, msgs, full, d) && IdsBelow(table, next) && other != device && Agree(other, a, table)
    ensures Agree(other, a, After(table, next, d))
  {
    hide DealOf, After, RowMeaning, Meant;
    var t := After(table, next, d);
    forall i | i in t && t[i].device == other ensures t[i].name in a && RowMeaning(t[i]) == Meant(a[t[i].name]) {
      OtherRowsAfter(device, attrs, msgs, full, d, table, next, i);
    }
    forall name | name in a ensures HasRow(t, other, name) {
      var i :| i in table && table[i].device == other && table[i].name == name;
      OtherRowsAfter(device, attrs, msgs, full, d, table, next, i);
    }
  }
}
