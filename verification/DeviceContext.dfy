/** The devices of an edge node: memory and database side by side, through
    attribute messages, reloads and membership snapshots. */
module DeviceContext {
  import opened Strings
  import opened DeviceAttr
  import opened DeviceStore

  const RETRY_TIMES: nat := 5

  /** A device of a membership message. */
  datatype Device = Device(id: string, attributes: Option<MsgAttrs>)

  // ---- Reading memory back ----

  function RowAttr(r: Row): MsgAttr
  {
    MsgAttr(r.value, Some(r.optional), Some(r.attrType))
  }

  /** `attrs` is what the device's rows say. */
  ghost predicate ReadBack(device: string, table: Table, attrs: Attrs)
  {
    && (forall i | i in table && table[i].device == device ::
          table[i].name in attrs && attrs[table[i].name] == RowAttr(table[i]))
    && (forall name | name in attrs :: HasRow(table, device, name))
  }

  lemma ReadBackAgrees(device: string, table: Table, attrs: Attrs)
    requires ReadBack(device, table, attrs)
    ensures Agree(device, attrs, table)
    ensures forall name | name in attrs :: attrs[name].optional.Some?
  {
    forall name | name in attrs ensures attrs[name].optional.Some? {
      var i :| i in table && table[i].device == device && table[i].name == name;
    }
  }

  /** The attributes as a reload gives them: the same meaning, nothing absent. */
  function Reloaded(attrs: Attrs): Attrs
  {
    map name | name in attrs ::
      var m := Meant(attrs[name]); MsgAttr(m.value, Some(m.optional), Some(m.attrType))
  }

  lemma ReadBackIsReloaded(device: string, table: Table, attrs: Attrs, after: Attrs)
    requires Agree(device, attrs, table) && ReadBack(device, table, after)
    ensures after == Reloaded(attrs)
  {
    forall name ensures name in after <==> name in attrs { }
    forall name | name in attrs ensures after[name] == Reloaded(attrs)[name] {
      var i :| i in table && table[i].device == device && table[i].name == name;
      assert RowMeaning(table[i]) == Meant(attrs[name]);
    }
  }

  /** What the attributes of a device mean. */
  function Meanings(attrs: Attrs): map<string, Meaning>
  {
    map name | name in attrs :: Meant(attrs[name])
  }

  /** Two memories agree with the same table exactly when they mean the same. */
  lemma AgreeIffSameMeaning(device: string, table: Table, a: Attrs, b: Attrs)
    requires Agree(device, a, table)
    ensures Agree(device, b, table) <==> Meanings(a) == Meanings(b)
  {
    hide Meant, RowMeaning;
    if Agree(device, b, table) {
      forall name ensures name in a <==> name in b { }
      forall name | name in a ensures Meant(a[name]) == Meant(b[name]) {
        var i :| i in table && table[i].device == device && table[i].name == name;
      }
    }
    if Meanings(a) == Meanings(b) {
      assert forall name :: name in a <==> name in Meanings(a);
      assert forall name :: name in b <==> name in Meanings(b);
      forall name | name in a ensures Meant(a[name]) == Meant(b[name]) {
        assert Meanings(a)[name] == Meanings(b)[name];
      }
    }
  }

  /** An attribute added without "optional" brings the process down with the
      next message that removes it or says anything about "optional". */
  lemma AddedWithoutOptionalCrashes(name: string, a: MsgAttr, after: Attrs, next: Option<MsgAttr>)
    requires a.optional.None? && Remembers(map[], map[name := Some(a)], false, after)
    requires next.Some? ==> next.value.optional.Some?
    ensures Crashes(after, map[name := next], false)
  {
    assert Lookup(after, name) == Applied(None, ChangeTo(map[], map[name := Some(a)], false, name));
    assert NilAt(after, map[name := next], false, name);
  }

  class Context {
    var memory: map<string, Attrs>
    var devices: set<string>
    const db: AttrDb

    constructor ()
      ensures Valid() && fresh(db) && memory == map[] && devices == {}
    {
      memory, devices := map[], {};
      db := new AttrDb();
    }

    /** Every device in memory has its row in the device table and agrees with
        its attribute rows; attribute rows belong to devices of the table. */
    ghost predicate Valid()
      reads this, db
    {
      && UniqueRows(db.table) && IdsBelow(db.table, db.next)
      && memory.Keys <= devices
      && (forall i | i in db.table :: db.table[i].device in devices)
      && (forall id | id in memory :: Agree(id, memory[id], db.table))
    }

    /** `DeviceAttrToMsgAttr` over the device's rows, in any order. */
    method AttrsFromRows(id: string) returns (attrs: Attrs)
      requires UniqueRows(db.table)
      ensures ReadBack(id, db.table, attrs)
    {
      attrs := map[];
      var todo := set i | i in db.table && db.table[i].device == id;
      while todo != {}
        invariant forall i | i in todo :: i in db.table && db.table[i].device == id
        invariant forall i | i in db.table && db.table[i].device == id && i !in todo ::
                    db.table[i].name in attrs && attrs[db.table[i].name] == RowAttr(db.table[i])
        invariant forall name | name in attrs :: HasRow(db.table, id, name)
      {
        var i :| i in todo;
        attrs := attrs[db.table[i].name := RowAttr(db.table[i])];
        assert HasRow(db.table, id, db.table[i].name);
        todo := todo - {i};
      }
    }

    /** `SyncDeviceFromSqlite`. */
    method SyncDeviceFromSqlite(id: string, queryOk: bool) returns (ok: bool)
      requires UniqueRows(db.table)
      modifies this`memory
      ensures ok <==> queryOk && id in devices
      ensures !ok ==> memory == old(memory)
      ensures ok ==> id in memory && memory == old(memory)[id := memory[id]] && ReadBack(id, db.table, memory[id])
    {
      if !queryOk {
        return false;
      }
      if id !in devices {
        return false;
      }
      var attrs := AttrsFromRows(id);
      memory := memory[id := attrs];
      return true;
    }

    /** `UpdateDeviceAttr`: memory first, then up to five attempts at the
        transaction, then a reload. When the transaction is stored, memory is
        what the message asks for; when it is stored or memory is read back,
        both agree; when neither, they agree exactly if the message changed no
        meaning. */
    method UpdateDeviceAttr(id: string, msgs: MsgAttrs, full: bool, attempts: seq<Option<nat>>, queryOk: bool)
        returns (crashed: bool, stored: bool, reloaded: bool)
      requires Valid() && |attempts| == RETRY_TIMES
      modifies this`memory, db
      ensures id !in old(memory) ==> !crashed && memory == old(memory) && db.table == old(db.table)
      ensures crashed <==> id in old(memory) && Crashes(old(memory)[id], msgs, full)
      ensures None in attempts && !crashed ==> stored
      ensures queryOk && !crashed ==> stored || reloaded
      ensures !crashed && id in old(memory) ==> id in memory && memory == old(memory)[id := memory[id]]
      ensures !crashed && id in memory && stored ==> Remembers(old(memory)[id], msgs, full, memory[id])
      ensures !crashed && id in memory && stored ==> AsAsked(old(memory)[id], msgs, full, memory[id])
      ensures !crashed && id in memory && reloaded ==> !stored && memory[id] == Reloaded(old(memory)[id])
      ensures !crashed && (stored || reloaded) ==> Valid()
      ensures !crashed && id in memory && !stored && !reloaded ==>
                && db.table == old(db.table)
                && (Agree(id, memory[id], db.table) <==> Meanings(memory[id]) == Meanings(old(memory)[id]))
    {
      hide Midway, After, Agree, Remembers, AsAsked, UniqueRows, IdsBelow, Meanings, ReadBack, Reloaded, Crashes;
      crashed, stored, reloaded := false, true, false;
      if id !in memory {
        return;
      }
      ghost var before := memory[id];
      var d;
      crashed, d := DealMsgAttr(id, memory[id], msgs, full);
      if crashed {
        return;
      }
      memory := memory[id := d.attrs];
      if |d.adds| != 0 || |d.deletes| != 0 || |d.updates| != 0 {
        stored := Attempt(d, attempts);
      } else {
        NothingToStore(id, before, msgs, full, d, db.table, db.next);
      }
      ghost var table, next := old(db.table), old(db.next);
      if stored {
        CommitAgrees(id, before, msgs, full, d, table, next);
        CommitFrame(id, before, msgs, full, d, table, next);
        CommitDevices(id, before, msgs, full, d, table, next, devices);
      } else {
        reloaded := SyncDeviceFromSqlite(id, queryOk);
        if reloaded {
          ReadBackAgrees(id, db.table, memory[id]);
          ReadBackIsReloaded(id, db.table, before, memory[id]);
        } else {
          AgreeIffSameMeaning(id, db.table, before, d.attrs);
        }
      }
    }

    ghost function Value(): Members
      reads this
    {
      Members(memory, devices)
    }

    /** One device of `addDevice`. A device that memory has takes over the
        snapshot's attributes; one it does not have is added to the device table
        first. When that fails for good, a lock that nobody holds is released,
        which is fatal. `stored` tells whether the attributes were stored; if not,
        memory is read back. */
    method AddDevice(device: Device, calls: Db) returns (crashed: bool, stored: bool)
      requires Valid() && |calls.attempts| == RETRY_TIMES
      modifies this, db
      ensures crashed <==> CrashesOn(old(Value()), Turn(device, calls.addOk, stored))
      ensures !crashed && None in calls.attempts ==> stored
      ensures !crashed ==> devices == old(devices) + {device.id}
      ensures !crashed ==> device.id in memory && memory == old(memory)[device.id := memory[device.id]]
      ensures !crashed && Settles(calls) ==>
                Valid() && Value() == Joined(old(Value()), Turn(device, calls.addOk, stored))
    {
      assert memory.Keys <= devices;
      hide Valid, Crashes, Remembered, Reloaded;
      if device.id in memory {
        crashed, stored := TakeOver(device.id, Given(device), calls);
      } else {
        crashed, stored := AddNew(device, calls);
      }
    }

    /** The second half of the loop body: a device that memory does not have. */
    method AddNew(device: Device, calls: Db) returns (crashed: bool, stored: bool)
      requires Valid() && device.id !in memory && |calls.attempts| == RETRY_TIMES
      modifies this, db
      ensures crashed <==> device.id in old(devices) || !calls.addOk || Crashes(map[], Given(device), true)
      ensures !crashed && None in calls.attempts ==> stored
      ensures !crashed ==> devices == old(devices) + {device.id}
      ensures !crashed ==> device.id in memory && memory == old(memory)[device.id := memory[device.id]]
      ensures !crashed && Settles(calls) ==> Valid()
      ensures !crashed && Settles(calls) ==>
                memory[device.id] == if stored then Remembered(map[], Given(device)) else Reloaded(map[])
    {
      hide Agree, UniqueRows, IdsBelow, Crashes, Remembered, Reloaded;
      memory := memory[device.id := map[]];
      if device.id in devices || !calls.addOk {
        memory := memory - {device.id};
        return true, false;
      }
      devices := devices + {device.id};
      NoRowsAgree(device.id, db.table);
      if device.attributes.Some? {
        crashed, stored := TakeOver(device.id, device.attributes.value, calls);
      } else {
        NoAttributes();
        return false, true;
      }
    }

    /** `UpdateDeviceAttr` with a snapshot's attributes. */
    method TakeOver(id: string, msgs: MsgAttrs, calls: Db) returns (crashed: bool, stored: bool)
      requires Valid() && id in memory && |calls.attempts| == RETRY_TIMES
      modifies this`memory, db
      ensures crashed <==> Crashes(old(memory)[id], msgs, true)
      ensures !crashed && None in calls.attempts ==> stored
      ensures !crashed ==> id in memory && memory == old(memory)[id := memory[id]]
      ensures !crashed && Settles(calls) ==> Valid()
      ensures !crashed && Settles(calls) ==>
                memory[id] == if stored then Remembered(old(memory)[id], msgs) else Reloaded(old(memory)[id])
    {
      hide Agree, UniqueRows, IdsBelow, Meanings, Crashes, Remembers, AsAsked, Remembered, Reloaded;
      var reloaded;
      crashed, stored, reloaded := UpdateDeviceAttr(id, msgs, true, calls.attempts, calls.queryOk);
      if !crashed && stored { RememberedIs(old(memory)[id], msgs, memory[id]); }
    }

    /** One device of `removeDevice`: it leaves memory even when the database
        keeps it. */
    method RemoveDevice(id: string, removeOk: bool)
      requires Valid()
      modifies this, db
      ensures Valid() && memory == old(memory) - {id}
      ensures devices == if id in old(memory) && removeOk then old(devices) - {id} else old(devices)
    {
      if id !in memory {
        return;
      }
      if removeOk {
        devices := devices - {id};
        db.table := map i | i in db.table && db.table[i].device != id :: db.table[i];
      }
      memory := memory - {id};
      forall other | other in memory { WithoutRows(other, memory[other], old(db.table), db.table, id); }
    }

    /** `getRemoveList`: the devices in memory that the snapshot does not have. */
    method GetRemoveList(snapshot: seq<Device>) returns (toRemove: seq<string>)
      ensures forall id :: id in toRemove <==> id in memory && id !in Ids(snapshot)
    {
      toRemove := [];
      var todo := memory.Keys;
      while todo != {}
        invariant todo <= memory.Keys
        invariant forall id :: id in toRemove <==> id in memory && id !in todo && id !in Ids(snapshot)
      {
        var id :| id in todo;
        var exists' := false;
        for i := 0 to |snapshot|
          invariant exists' <==> exists k | 0 <= k < i :: snapshot[k].id == id
        {
          if snapshot[i].id == id {
            exists' := true;
            break;
          }
        }
        if !exists' {
          assert id !in Ids(snapshot);
          toRemove := toRemove + [id];
        }
        todo := todo - {id};
      }
    }

    /** The loop of `addDevice` over a snapshot, whatever calls fail, as long as
        what cannot be stored can be read back. */
    method AddDevices(snapshot: seq<Device>, calls: seq<Db>) returns (crashed: bool, ghost turns: seq<Turn>)
      requires Valid() && Answers(snapshot, calls)
      modifies this, db
      ensures TurnsOf(turns, snapshot, calls)
      ensures crashed <==> Fails(old(Value()), turns)
      ensures !crashed ==> Valid() && Value() == AllJoined(old(Value()), turns)
    {
      hide Valid, Joined, CrashesOn, Settles;
      crashed, turns := false, [];
      for i := 0 to |snapshot|
        invariant Valid() && TurnsOf(turns, snapshot[..i], calls[..i])
        invariant !Fails(old(Value()), turns) && Value() == AllJoined(old(Value()), turns)
      {
        var stored;
        crashed, stored := AddDevice(snapshot[i], calls[i]);
        ghost var turn := Turn(snapshot[i], calls[i].addOk, stored || None in calls[i].attempts);
        assert (turns + [turn])[..i] == turns;
        TurnsSnoc(turns, snapshot, calls, i, turn);
        SameTurn(AllJoined(old(Value()), turns), snapshot[i], calls[i].addOk, stored, turn.stored);
        turns := turns + [turn];
        if crashed {
          ghost var upto := turns;
          turns := TurnsRest(upto, snapshot, calls);
          assert turns[..i + 1] == upto;
          FailsEarly(old(Value()), turns, i + 1);
          return;
        }
      }
      assert snapshot[..|snapshot|] == snapshot && calls[..|calls|] == calls;
    }

    /** The loop of `removeDevice`: the listed devices leave memory, and the table
        unless it refuses. */
    method RemoveDevices(toRemove: seq<string>, refused: set<string>)
      requires Valid()
      modifies this, db
      ensures Valid()
      ensures forall id :: id in memory <==> id in old(memory) && id !in toRemove
      ensures forall id | id in memory :: memory[id] == old(memory)[id]
      ensures forall id :: id in devices <==> id in old(devices) && !(id in toRemove && id in old(memory) && id !in refused)
    {
      hide Valid;
      for i := 0 to |toRemove|
        invariant Valid()
        invariant forall id :: id in memory <==> id in old(memory) && id !in toRemove[..i]
        invariant forall id | id in memory :: memory[id] == old(memory)[id]
        invariant forall id :: id in devices <==>
                    id in old(devices) && !(id in toRemove[..i] && id in old(memory) && id !in refused)
      {
        RemoveDevice(toRemove[i], toRemove[i] !in refused);
      }
    }

    /** `dealMembershipDetail`: unless some device of the snapshot brings the
        process down, the devices in memory afterwards are exactly the snapshot's,
        each with exactly the attributes the snapshot gives it last, if those were
        stored; the table keeps, beside them, what it refused to remove and
        what was stranded before. */
    method DealMembershipDetail(snapshot: seq<Device>, calls: seq<Db>, refused: set<string>)
        returns (crashed: bool, ghost turns: seq<Turn>)
      requires Valid() && Answers(snapshot, calls)
      modifies this, db
      ensures TurnsOf(turns, snapshot, calls)
      ensures crashed <==> Fails(old(Value()), turns)
      ensures !crashed ==> Valid() && memory.Keys == Ids(snapshot) && Takes(memory, turns)
      ensures !crashed ==> forall id | id in memory ::
                  id in AllJoined(old(Value()), turns).memory && memory[id] == AllJoined(old(Value()), turns).memory[id]
      ensures !crashed ==> devices == old(devices) + Ids(snapshot) - (old(memory).Keys - Ids(snapshot) - refused)
    {
      hide Valid, Takes, Fails, AllJoined, Settles;
      ghost var before := Value();
      crashed, turns := AddDevices(snapshot, calls);
      if crashed {
        return;
      }
      ghost var all, had := memory, devices;
      JoinedKeys(before, turns);
      JoinedTakes(before, turns);
      TurnIds(turns, snapshot, calls);
      var toRemove := GetRemoveList(snapshot);
      if |toRemove| != 0 {
        RemoveDevices(toRemove, refused);
      }
      assert forall id :: id in memory <==> id in all && id in Ids(snapshot);
      TakesFewer(all, memory, turns);
    }

    /** The retry loop around the transaction. */
    method Attempt(d: Deal, attempts: seq<Option<nat>>) returns (stored: bool)
      modifies db
      ensures None in attempts ==> stored
      ensures stored ==> db.table == After(old(db.table), old(db.next), d) && db.next == old(db.next) + |d.adds|
      ensures !stored ==> db.table == old(db.table) && db.next == old(db.next)
    {
      var total := |d.adds| + |d.deletes| + |d.updates|;
      for i := 0 to |attempts|
        invariant db.table == old(db.table) && db.next == old(db.next)
        invariant None !in attempts[..i]
      {
        var failing := match attempts[i] case None => total case Some(k) => k;
        stored := db.DeviceAttrTrans(d.adds, d.deletes, d.updates, failing);
        if stored {
          return;
        }
        assert attempts[..i + 1] == attempts[..i] + [attempts[i]];
      }
      assert attempts[..|attempts|] == attempts;
      return false;
    }
  }

  /** The database's answers while one device is added. */
  datatype Db = Db(addOk: bool, attempts: seq<Option<nat>>, queryOk: bool)

  /** What cannot be stored can be read back. */
  predicate Settles(d: Db)
  {
    d.queryOk || None in d.attempts
  }

  predicate Answers(snapshot: seq<Device>, calls: seq<Db>)
  {
    |calls| == |snapshot| && forall i | 0 <= i < |calls| :: |calls[i].attempts| == RETRY_TIMES && Settles(calls[i])
  }

  /** One device's turn: whether the device table takes it, and whether its
      attributes are stored. */
  datatype Turn = Turn(device: Device, addOk: bool, stored: bool)

  /** The turns of a snapshot under the database's answers. */
  ghost predicate TurnsOf(turns: seq<Turn>, snapshot: seq<Device>, calls: seq<Db>)
  {
    && |turns| == |snapshot| == |calls|
    && forall i | 0 <= i < |turns| ::
         && turns[i].device == snapshot[i] && turns[i].addOk == calls[i].addOk
         && (None in calls[i].attempts ==> turns[i].stored)
  }

  lemma TurnsSnoc(turns: seq<Turn>, snapshot: seq<Device>, calls: seq<Db>, i: nat, turn: Turn)
    requires i < |snapshot| == |calls| && TurnsOf(turns, snapshot[..i], calls[..i])
    requires turn.device == snapshot[i] && turn.addOk == calls[i].addOk && (None in calls[i].attempts ==> turn.stored)
    ensures TurnsOf(turns + [turn], snapshot[..i + 1], calls[..i + 1])
  {
  }

  /** The turns that a crash leaves out. */
  ghost function TurnsRest(turns: seq<Turn>, snapshot: seq<Device>, calls: seq<Db>): (all: seq<Turn>)
    requires |turns| <= |snapshot| == |calls| && TurnsOf(turns, snapshot[..|turns|], calls[..|turns|])
    ensures TurnsOf(all, snapshot, calls) && turns <= all
  {
    seq(|snapshot|, i requires 0 <= i < |snapshot| =>
      if i < |turns| then turns[i] else Turn(snapshot[i], calls[i].addOk, true))
  }

  lemma TurnIds(turns: seq<Turn>, snapshot: seq<Device>, calls: seq<Db>)
    requires TurnsOf(turns, snapshot, calls)
    ensures IdsOf(turns) == Ids(snapshot)
  {
    forall t | t in turns ensures t.device in snapshot {
      var i :| 0 <= i < |turns| && turns[i] == t;
      assert snapshot[i] == t.device;
    }
    forall d | d in snapshot ensures d.id in IdsOf(turns) {
      var i :| 0 <= i < |snapshot| && snapshot[i] == d;
      assert turns[i] in turns && turns[i].device == d;
    }
  }

  function IdsOf(turns: seq<Turn>): set<string>
  {
    set t | t in turns :: t.device.id
  }

  function Ids(devices: seq<Device>): set<string>
  {
    set d | d in devices :: d.id
  }

  /** The attributes a snapshot gives a device. */
  function Given(d: Device): MsgAttrs
  {
    if d.attributes.Some? then d.attributes.value else map[]
  }

  /** The attributes after the message: the one memory that remembers it. */
  function Remembered(attrs: Attrs, msgs: MsgAttrs): Attrs
  {
    map name | name in attrs.Keys + msgs.Keys && Applied(Lookup(attrs, name), ChangeTo(attrs, msgs, true, name)).Some? ::
      Applied(Lookup(attrs, name), ChangeTo(attrs, msgs, true, name)).value
  }

  lemma RememberedIs(attrs: Attrs, msgs: MsgAttrs, after: Attrs)
    requires Remembers(attrs, msgs, true, after)
    ensures after == Remembered(attrs, msgs)
  {
    hide ChangeTo;
    forall name ensures Lookup(after, name) == Lookup(Remembered(attrs, msgs), name) {
      assert Lookup(after, name) == Applied(Lookup(attrs, name), ChangeTo(attrs, msgs, true, name));
      if name !in attrs.Keys + msgs.Keys { Unmentioned(attrs, msgs, name); }
    }
    SameLookups(after, Remembered(attrs, msgs));
  }

  lemma Unmentioned(attrs: Attrs, msgs: MsgAttrs, name: string)
    requires name !in attrs && name !in msgs
    ensures ChangeTo(attrs, msgs, true, name) == Keep
  {
  }

  lemma SameLookups(a: Attrs, b: Attrs)
    requires forall name :: Lookup(a, name) == Lookup(b, name)
    ensures a == b
  {
    assert forall name :: name in a <==> Lookup(a, name).Some?;
    assert forall name :: name in b <==> Lookup(b, name).Some?;
    assert forall name | name in a :: a[name] == Lookup(a, name).value && b[name] == Lookup(b, name).value;
  }

  lemma NoAttributes()
    ensures Remembered(map[], map[]) == map[] && !Crashes(map[], map[], true)
  {
  }

  /** The devices in memory, with their attributes, and those of the table. */
  datatype Members = Members(memory: map<string, Attrs>, devices: set<string>)

  function AttrsOf(s: Members, id: string): Attrs
  {
    if id in s.memory then s.memory[id] else map[]
  }

  /** Adding the device brings the process down: on a nil access, or because a
      device that memory does not have is in the table or refused by it. */
  ghost predicate CrashesOn(s: Members, t: Turn)
  {
    || (t.device.id !in s.memory && (t.device.id in s.devices || !t.addOk))
    || Crashes(AttrsOf(s, t.device.id), Given(t.device), true)
  }

  function Joined(s: Members, t: Turn): Members
  {
    var attrs := AttrsOf(s, t.device.id);
    Members(s.memory[t.device.id := if t.stored then Remembered(attrs, Given(t.device)) else Reloaded(attrs)],
            s.devices + {t.device.id})
  }

  function AllJoined(s: Members, turns: seq<Turn>): Members
  {
    if turns == [] then s else Joined(AllJoined(s, turns[..|turns| - 1]), turns[|turns| - 1])
  }

  /** Some device brings the process down at its turn. */
  ghost predicate Fails(s: Members, turns: seq<Turn>)
  {
    turns != [] &&
    var front := turns[..|turns| - 1];
    Fails(s, front) || CrashesOn(AllJoined(s, front), turns[|turns| - 1])
  }

  lemma SameTurn(s: Members, d: Device, addOk: bool, a: bool, b: bool)
    ensures CrashesOn(s, Turn(d, addOk, a)) <==> CrashesOn(s, Turn(d, addOk, b))
  {
  }

  lemma {:induction false} FailsEarly(s: Members, turns: seq<Turn>, k: nat)
    requires k <= |turns| && Fails(s, turns[..k])
    ensures Fails(s, turns)
    decreases |turns|
  {
    hide CrashesOn, AllJoined;
    if k == |turns| {
      assert turns[..k] == turns;
    } else {
      var front := turns[..|turns| - 1];
      assert front[..k] == turns[..k];
      FailsEarly(s, front, k);
    }
  }

  lemma {:induction false} JoinedKeys(s: Members, turns: seq<Turn>)
    ensures AllJoined(s, turns).memory.Keys == s.memory.Keys + IdsOf(turns)
    ensures AllJoined(s, turns).devices == s.devices + IdsOf(turns)
    ensures forall id | id in s.memory && id !in IdsOf(turns) :: AllJoined(s, turns).memory[id] == s.memory[id]
  {
    hide Remembered, Reloaded;
    if turns != [] {
      var front, t := turns[..|turns| - 1], turns[|turns| - 1];
      JoinedKeys(s, front);
      IdsGrow(front, t);
      assert turns == front + [t];
    }
  }

  /** A snapshot brings the process down exactly when one of its devices does at
      its turn, on what the devices before it have left. */
  lemma {:induction false} FailsIff(s: Members, turns: seq<Turn>)
    ensures Fails(s, turns) <==> exists k | 0 <= k < |turns| :: CrashesOn(AllJoined(s, turns[..k]), turns[k])
  {
    hide CrashesOn, AllJoined;
    if turns != [] {
      var n := |turns| - 1;
      var front := turns[..n];
      FailsIff(s, front);
      assert forall k | 0 <= k < n :: front[k] == turns[k] && front[..k] == turns[..k];
    }
  }

  /** When the snapshot lists no device twice, that is: on what the device had
      before the snapshot. */
  lemma FailsIffDistinct(s: Members, turns: seq<Turn>)
    requires forall i, j | 0 <= i < j < |turns| :: turns[i].device.id != turns[j].device.id
    ensures Fails(s, turns) <==>
              exists k | 0 <= k < |turns| ::
                var d := turns[k].device;
                || (d.id !in s.memory && (d.id in s.devices || !turns[k].addOk))
                || Crashes(if d.id in s.memory then s.memory[d.id] else map[], Given(d), true)
  {
    hide AllJoined, Fails, Crashes;
    FailsIff(s, turns);
    assert forall k | 0 <= k < |turns| :: CrashesOn(s, turns[k]) <==>
             (var d := turns[k].device;
              || (d.id !in s.memory && (d.id in s.devices || !turns[k].addOk))
              || Crashes(if d.id in s.memory then s.memory[d.id] else map[], Given(d), true));
    forall k | 0 <= k < |turns| ensures CrashesOn(AllJoined(s, turns[..k]), turns[k]) <==> CrashesOn(s, turns[k]) {
      JoinedKeys(s, turns[..k]);
      assert turns[k].device.id !in IdsOf(turns[..k]);
      SameCrash(s, AllJoined(s, turns[..k]), turns[k]);
    }
  }

  lemma SameCrash(s: Members, u: Members, t: Turn)
    requires t.device.id in s.memory <==> t.device.id in u.memory
    requires t.device.id in s.devices <==> t.device.id in u.devices
    requires t.device.id in s.memory ==> u.memory[t.device.id] == s.memory[t.device.id]
    ensures CrashesOn(s, t) <==> CrashesOn(u, t)
  {
  }

  /** Every snapshot that names a device which the table has and memory does not
      brings the process down. */
  lemma {:induction false} StrandedCrashes(s: Members, turns: seq<Turn>, id: string)
    requires id in s.devices && id !in s.memory && id in IdsOf(turns)
    ensures Fails(s, turns)
  {
    hide Crashes;
    var front, t := turns[..|turns| - 1], turns[|turns| - 1];
    IdsGrow(front, t);
    assert turns == front + [t];
    if id in IdsOf(front) {
      StrandedCrashes(s, front, id);
    } else {
      JoinedKeys(s, front);
    }
  }

  /** A removal that fails strands the device: every later snapshot that has it is
      fatal. */
  method StrandedRun(c: Context, id: string, snapshot: seq<Device>, calls: seq<Db>, refused: set<string>)
      returns (crashed: bool)
    requires c.Valid() && id in c.memory && id in Ids(snapshot) && Answers(snapshot, calls)
    modifies c, c.db
    ensures crashed
  {
    hide Fails, Answers;
    c.RemoveDevice(id, false);
    ghost var before, turns := c.Value(), [];
    crashed, turns := c.DealMembershipDetail(snapshot, calls, refused);
    TurnIds(turns, snapshot, calls);
    StrandedCrashes(before, turns, id);
  }

  lemma {:induction false} JoinedTakes(s: Members, turns: seq<Turn>)
    requires !Fails(s, turns)
    ensures Takes(AllJoined(s, turns).memory, turns)
  {
    hide Takes, Given, Remembered, Reloaded, Crashes, Carries;
    if turns == [] {
      TakesNone(s.memory);
    } else {
      var front, t := turns[..|turns| - 1], turns[|turns| - 1];
      var u := AllJoined(s, front);
      JoinedTakes(s, front);
      RememberedCarries(AttrsOf(u, t.device.id), Given(t.device));
      assert turns == front + [t];
      TakesOneMore(u.memory, Joined(u, t).memory, front, t);
    }
  }

  lemma RememberedCarries(attrs: Attrs, msgs: MsgAttrs)
    requires !Crashes(attrs, msgs, true)
    ensures Carries(Remembered(attrs, msgs), msgs)
  {
    forall name ensures name in Remembered(attrs, msgs) <==> name in msgs {
      assert !NilAt(attrs, msgs, true, name);
    }
    forall name | name in msgs && msgs[name].Some? ensures Remembered(attrs, msgs)[name].value == msgs[name].value.value {
      assert !NilAt(attrs, msgs, true, name);
    }
  }

  /** The attributes have exactly the names of the message, with its values. */
  ghost predicate Carries(attrs: Attrs, msgs: MsgAttrs)
  {
    attrs.Keys == msgs.Keys && forall name | name in msgs && msgs[name].Some? :: attrs[name].value == msgs[name].value.value
  }

  /** Every device in memory has the attributes that its last turn gives it, if
      they were stored. */
  ghost predicate Takes(memory: map<string, Attrs>, turns: seq<Turn>)
  {
    forall k | 0 <= k < |turns| && turns[k].stored && turns[k].device.id in memory && LastOfItsId(turns, k) ::
      Carries(memory[turns[k].device.id], Given(turns[k].device))
  }

  predicate LastOfItsId(turns: seq<Turn>, k: nat)
    requires k < |turns|
  {
    forall j | k < j < |turns| :: turns[j].device.id != turns[k].device.id
  }

  lemma IdsGrow(done: seq<Turn>, t: Turn)
    ensures IdsOf(done + [t]) == IdsOf(done) + {t.device.id}
  {
  }

  lemma TakesNone(memory: map<string, Attrs>)
    ensures Takes(memory, [])
  {
  }

  lemma TakesOneMore(had: map<string, Attrs>, memory: map<string, Attrs>, done: seq<Turn>, t: Turn)
    requires Takes(had, done)
    requires forall other | other != t.device.id :: other in memory <==> other in had
    requires forall other | other in had && other != t.device.id :: memory[other] == had[other]
    requires t.stored && t.device.id in memory ==> Carries(memory[t.device.id], Given(t.device))
    ensures Takes(memory, done + [t])
  {
    hide Given, Carries;
    var all := done + [t];
    forall k | 0 <= k < |all| && all[k].stored && all[k].device.id in memory && LastOfItsId(all, k)
      ensures Carries(memory[all[k].device.id], Given(all[k].device))
    {
      if k < |done| {
        assert all[|done|].device.id != all[k].device.id;
        assert forall j | k < j < |done| :: all[j] == done[j];
        assert LastOfItsId(done, k);
      }
    }
  }

  lemma TakesFewer(had: map<string, Attrs>, memory: map<string, Attrs>, turns: seq<Turn>)
    requires Takes(had, turns)
    requires forall id | id in memory :: id in had && memory[id] == had[id]
    ensures Takes(memory, turns)
  {
  }

  /** With nothing listed, the transaction would change nothing. */
  lemma NothingToStore(id: string, attrs: Attrs, msgs: MsgAttrs, full: bool, d: Deal, table: Table, next: nat)
    requires d.adds == [] && d.deletes == [] && d.updates == []
    ensures After(table, next, d) == table
  {
    assert forall i | i in table :: UpdatedRow(table[i], []) == table[i];
  }

  /** Rows still belong to known devices. */
  lemma CommitDevices(device: string, attrs: Attrs, msgs: MsgAttrs, full: bool, d: Deal, table: Table, next: nat,
                      devices: set<string>)
    requires DealOf(device, attrs, msgs, full, d) && IdsBelow(table, next) && device in devices
    requires forall i | i in table :: table[i].device in devices
    ensures forall i | i in After(table, next, d) :: After(table, next, d)[i].device in devices
  {
    hide DealOf, After;
    forall i | i in After(table, next, d) ensures After(table, next, d)[i].device in devices {
      OtherRowsAfter(device, attrs, msgs, full, d, table, next, i);
    }
  }

  lemma NoRowsAgree(id: string, table: Table)
    requires forall i | i in table :: table[i].device != id
    ensures Agree(id, map[], table)
  {
  }

  lemma WithoutRows(other: string, attrs: Attrs, table: Table, after: Table, id: string)
    requires other != id && Agree(other, attrs, table)
    requires forall i :: i in after ==> i in table && after[i] == table[i]
    requires forall i | i in table && table[i].device != id :: i in after
    ensures Agree(other, attrs, after)
  {
    forall name | name in attrs ensures HasRow(after, other, name) {
      var i :| i in table && table[i].device == other && table[i].name == name;
      assert i in after;
    }
  }
}
