/**
 Two owner updates of one Application at once. Nothing serialises them: both may read the rows before
 either writes. This module says what they then leave, and exactly when that is what was asked for.
 */
module OwnerOverlap {
  import opened Prelude
  import opened OwnerSlots

  /** A call that has read its rows: the slots it wants, and the ids of the rows it inserts. */
  datatype Call = Call(desired: Slots, created: map<Id, Slot>, now: Time)

  ghost predicate RowOf(rows: map<Id, Row>, app: Id, k: Slot, id: Id) {
    id in rows && rows[id].application == app && rows[id].slot == k
  }

  ghost predicate HasRow(rows: map<Id, Row>, app: Id, k: Slot) {
    exists id :: RowOf(rows, app, k, id)
  }

  /** The call inserts one new row for each slot it wants and found no row for. */
  ghost predicate CreatesOk(read: map<Id, Row>, stored: map<Id, Row>, app: Id, c: Call) {
    && (forall id :: id in c.created ==> id !in stored && c.created[id] in c.desired && !HasRow(read, app, c.created[id]))
    && (forall k :: k in c.desired && !HasRow(read, app, k) ==> exists id :: id in c.created && c.created[id] == k)
    && (forall a, b :: a in c.created && b in c.created && c.created[a] == c.created[b] ==> a == b)
  }

  /** A row as one call leaves it. */
  ghost function Wanted(r: Row, app: Id, desired: Slots, now: Time): Row {
    if r.application == app && r.slot in desired then r.(user := desired[r.slot], deletedAt := None, updatedAt := now)
    else Retired(r, app, desired, now)
  }

  /** A stored row after an update that writes only the columns that differ from what its call had read. */
  ghost function WrittenOver(read: Row, wanted: Row, stored: Row): Row {
    stored.(user := if wanted.user != read.user then wanted.user else stored.user,
            deletedAt := if wanted.deletedAt != read.deletedAt then wanted.deletedAt else stored.deletedAt,
            updatedAt := if wanted.updatedAt != read.updatedAt then wanted.updatedAt else stored.updatedAt)
  }

  /** The stored rows after the writes of a call that decided on what it had read. */
  ghost function AfterCall(read: map<Id, Row>, stored: map<Id, Row>, app: Id, c: Call): map<Id, Row>
    requires read.Keys <= stored.Keys && forall id :: id in c.created ==> c.created[id] in c.desired
  {
    map id | id in stored.Keys + c.created.Keys ::
      if id in c.created then Row(app, c.created[id], c.desired[c.created[id]], None, c.now)
      else if id in read then WrittenOver(read[id], Wanted(read[id], app, c.desired, c.now), stored[id])
      else stored[id]
  }

  /** Both calls read the same rows; the first one's writes land, then the second one's. */
  ghost predicate Overlap(read: map<Id, Row>, app: Id, one: Call, two: Call) {
    && Unique(read) && CreatesOk(read, read, app, one) && CreatesOk(read, AfterCall(read, read, app, one), app, two)
  }

  ghost function Left(read: map<Id, Row>, app: Id, one: Call, two: Call): map<Id, Row>
    requires Overlap(read, app, one, two)
  {
    AfterCall(read, AfterCall(read, read, app, one), app, two)
  }

  // ---- who holds each slot in the end -----------------------------------------------------------

  /** What both calls read about a slot. */
  datatype SlotState = Absent | Held(user: Id) | GivenUp(user: Id)

  ghost function StateOf(rows: map<Id, Row>, app: Id, k: Slot): SlotState {
    if HasRow(rows, app, k) then
      var id :| RowOf(rows, app, k, id);
      if rows[id].deletedAt == None then Held(rows[id].user) else GivenUp(rows[id].user)
    else Absent
  }

  /** The holder of a slot after both calls, from what was read and the two requests alone. */
  ghost function Holder(s: SlotState, one: Slots, two: Slots, k: Slot): Option<Id> {
    match s
    case Absent => if k in two then Some(two[k]) else if k in one then Some(one[k]) else None
    case Held(u) =>
      if k in two && k in one then Some(if two[k] != u then two[k] else one[k]) else None
    case GivenUp(u) =>
      if k in two then Some(if two[k] != u then two[k] else if k in one then one[k] else u)
      else if k in one then Some(one[k]) else None
  }

  /** The slots that both calls insert a row for. */
  ghost predicate Clash(read: map<Id, Row>, app: Id, one: Slots, two: Slots) {
    exists k :: k in one && k in two && !HasRow(read, app, k)
  }

  /** The final rows of a slot come from the row that was read, or from the one call that inserted it. */
  lemma LeftRow(read: map<Id, Row>, app: Id, one: Call, two: Call, id: Id)
    requires Overlap(read, app, one, two) && id in Left(read, app, one, two)
    ensures var r := Left(read, app, one, two)[id];
            if id in read then
              && r.application == read[id].application && r.slot == read[id].slot
              && (r.application == app ==>
                    var s := if read[id].deletedAt == None then Held(read[id].user) else GivenUp(read[id].user);
                    if r.deletedAt == None then Holder(s, one.desired, two.desired, r.slot) == Some(r.user)
                    else Holder(s, one.desired, two.desired, r.slot) == None)
              && (r.application != app ==> r == read[id])
            else
              && r.application == app && r.deletedAt == None && !HasRow(read, app, r.slot)
              && if id in two.created then r.slot == two.created[id] && r.user == two.desired[r.slot]
                 else id in one.created && r.slot == one.created[id] && r.user == one.desired[r.slot]
  {
  }

  lemma Kept(read: map<Id, Row>, app: Id, one: Call, two: Call, id: Id)
    requires Overlap(read, app, one, two) && (id in read || id in one.created || id in two.created)
    ensures id in Left(read, app, one, two)
  {
  }

  lemma StateIs(read: map<Id, Row>, app: Id, id: Id)
    requires Unique(read) && id in read && read[id].application == app
    ensures StateOf(read, app, read[id].slot) == if read[id].deletedAt == None then Held(read[id].user) else GivenUp(read[id].user)
  {
    var k := read[id].slot;
    assert RowOf(read, app, k, id);
    forall other | RowOf(read, app, k, other)
      ensures other == id
    {
      assert SameSlot(read, other, id);
    }
  }

  lemma LeftSlotIsOnce(read: map<Id, Row>, app: Id, one: Call, two: Call, a: Id, b: Id)
    requires Overlap(read, app, one, two) && !Clash(read, app, one.desired, two.desired)
    requires SameSlot(Left(read, app, one, two), a, b)
    ensures a == b
  {
    LeftRow(read, app, one, two, a);
    LeftRow(read, app, one, two, b);
    var k := Left(read, app, one, two)[a].slot;
    assert forall id :: id in read && read[id].application == app && read[id].slot == k ==> RowOf(read, app, k, id);
    if a in read && b in read {
      assert SameSlot(read, a, b);
    } else {
      assert !(k in one.desired && k in two.desired && !HasRow(read, app, k));
    }
  }

  /** The second insert breaks the unique key exactly when both calls insert the same slot; the later call then fails. */
  lemma SecondInsertFails(read: map<Id, Row>, app: Id, one: Call, two: Call)
    requires Overlap(read, app, one, two)
    ensures Unique(Left(read, app, one, two)) <==> !Clash(read, app, one.desired, two.desired)
  {
    var left := Left(read, app, one, two);
    if Clash(read, app, one.desired, two.desired) {
      var k :| k in one.desired && k in two.desired && !HasRow(read, app, k);
      var a :| a in one.created && one.created[a] == k;
      var b :| b in two.created && two.created[b] == k;
      LeftRow(read, app, one, two, a);
      LeftRow(read, app, one, two, b);
      assert SameSlot(left, a, b) && a != b;
    } else {
      forall a, b | SameSlot(left, a, b)
        ensures a == b
      {
        LeftSlotIsOnce(read, app, one, two, a, b);
      }
    }
  }

  lemma AloneRow(read: map<Id, Row>, app: Id, c: Call, id: Id)
    requires CreatesOk(read, read, app, c) && id in AfterCall(read, read, app, c)
    ensures var r := AfterCall(read, read, app, c)[id];
            && (id in read ==> r == Wanted(read[id], app, c.desired, c.now))
            && (id !in read ==> r == Row(app, c.created[id], c.desired[c.created[id]], None, c.now))
  {
  }

  lemma AloneIsUnique(read: map<Id, Row>, app: Id, c: Call)
    requires Unique(read) && CreatesOk(read, read, app, c)
    ensures Unique(AfterCall(read, read, app, c))
  {
    forall a, b | SameSlot(AfterCall(read, read, app, c), a, b)
      ensures a == b
    {
      AloneSlotIsOnce(read, app, c, a, b);
    }
  }

  /** A call that is alone, or whose rival's insert failed and rolled back, leaves exactly its request. */
  lemma AloneMeetsTheRequest(read: map<Id, Row>, app: Id, c: Call)
    requires Unique(read) && CreatesOk(read, read, app, c)
    ensures Unique(AfterCall(read, read, app, c)) && ActiveSlots(AfterCall(read, read, app, c), app) == c.desired
  {
    var after := AfterCall(read, read, app, c);
    AloneIsUnique(read, app, c);
    forall k, id | Holds(after, app, k, id)
      ensures k in c.desired && after[id].user == c.desired[k]
    {
      AloneRow(read, app, c, id);
    }
    forall k | k in c.desired
      ensures exists id :: Holds(after, app, k, id)
    {
      AloneHolds(read, app, c, k);
    }
    AreTheSlots(after, app, c.desired);
  }

  /** Row by row it does what the serial command does. */
  lemma AloneRewrites(read: map<Id, Row>, app: Id, c: Call)
    requires Unique(read) && CreatesOk(read, read, app, c)
    ensures Rewritten(read, AfterCall(read, read, app, c), app, c.desired, c.now)
  {
    var after := AfterCall(read, read, app, c);
    AloneIsUnique(read, app, c);
    forall id | id in after
      ensures id in read ==> after[id] == Wanted(read[id], app, c.desired, c.now)
      ensures id !in read ==> after[id].slot in c.desired && after[id] == Row(app, after[id].slot, c.desired[after[id].slot], None, c.now)
    {
      AloneRow(read, app, c, id);
    }
    forall a, b | a in after && b in after && a !in read && after[a].application == after[b].application && after[a].slot == after[b].slot
      ensures a == b
    {
      assert SameSlot(after, a, b);
    }
    forall k | k in c.desired
      ensures exists id :: id in after && after[id] == Row(app, k, c.desired[k], None, c.now)
    {
      var id :| RowOf(read, app, k, id) || (id in c.created && c.created[id] == k);
      AloneRow(read, app, c, id);
      assert id in after;
    }
  }

  lemma AloneSlotIsOnce(read: map<Id, Row>, app: Id, c: Call, a: Id, b: Id)
    requires Unique(read) && CreatesOk(read, read, app, c) && SameSlot(AfterCall(read, read, app, c), a, b)
    ensures a == b
  {
    AloneRow(read, app, c, a);
    AloneRow(read, app, c, b);
    var k := AfterCall(read, read, app, c)[a].slot;
    assert forall id :: id in read && read[id].application == app && read[id].slot == k ==> RowOf(read, app, k, id);
    if a in read && b in read {
      assert SameSlot(read, a, b);
    }
  }

  lemma AloneHolds(read: map<Id, Row>, app: Id, c: Call, k: Slot)
    requires Unique(read) && CreatesOk(read, read, app, c) && k in c.desired
    ensures exists id :: Holds(AfterCall(read, read, app, c), app, k, id)
  {
    var after := AfterCall(read, read, app, c);
    var id :| RowOf(read, app, k, id) || (id in c.created && c.created[id] == k);
    AloneRow(read, app, c, id);
    assert Holds(after, app, k, id);
  }

  lemma HolderIsLeft(read: map<Id, Row>, app: Id, one: Call, two: Call, k: Slot)
    requires Overlap(read, app, one, two) && Unique(Left(read, app, one, two))
    requires Holder(StateOf(read, app, k), one.desired, two.desired, k).Some?
    ensures k in ActiveSlots(Left(read, app, one, two), app)
  {
    var left := Left(read, app, one, two);
    if HasRow(read, app, k) {
      var id :| RowOf(read, app, k, id);
      StateIs(read, app, id);
      Kept(read, app, one, two, id);
      LeftRow(read, app, one, two, id);
      assert Holds(left, app, k, id);
    } else {
      var id :| (id in one.created && one.created[id] == k) || (id in two.created && two.created[id] == k);
      Kept(read, app, one, two, id);
      LeftRow(read, app, one, two, id);
      assert Holds(left, app, k, id);
    }
  }

  lemma LeftIsHolder(read: map<Id, Row>, app: Id, one: Call, two: Call, id: Id)
    requires Overlap(read, app, one, two) && !Clash(read, app, one.desired, two.desired)
    requires id in Left(read, app, one, two) && Left(read, app, one, two)[id].application == app
    requires Left(read, app, one, two)[id].deletedAt == None
    ensures var r := Left(read, app, one, two)[id];
            Holder(StateOf(read, app, r.slot), one.desired, two.desired, r.slot) == Some(r.user)
  {
    LeftRow(read, app, one, two, id);
    if id in read {
      StateIs(read, app, id);
    } else if id !in two.created {
      var k := one.created[id];
      assert !(k in one.desired && k in two.desired && !HasRow(read, app, k));
    }
  }

  ghost function Lookup(slots: Slots, k: Slot): Option<Id> {
    if k in slots then Some(slots[k]) else None
  }

  /** These are the slots that two overlapping calls leave. */
  ghost predicate Holders(slots: Slots, read: map<Id, Row>, app: Id, one: Slots, two: Slots) {
    forall k {:trigger Lookup(slots, k)} :: Lookup(slots, k) == Holder(StateOf(read, app, k), one, two, k)
  }

  /** For every slot: who holds it after two overlapping calls, from what they read and asked for. */
  lemma OverlapLeaves(read: map<Id, Row>, app: Id, one: Call, two: Call)
    requires Overlap(read, app, one, two) && !Clash(read, app, one.desired, two.desired)
    ensures Unique(Left(read, app, one, two))
    ensures Holders(ActiveSlots(Left(read, app, one, two), app), read, app, one.desired, two.desired)
  {
    SecondInsertFails(read, app, one, two);
    var left := Left(read, app, one, two);
    var slots := ActiveSlots(left, app);
    forall k {:trigger Lookup(slots, k)}
      ensures Lookup(slots, k) == Holder(StateOf(read, app, k), one.desired, two.desired, k)
    {
      if k in slots {
        var id :| Holds(left, app, k, id);
        HolderIs(left, app, k, id);
        LeftIsHolder(read, app, one, two, id);
      } else if Holder(StateOf(read, app, k), one.desired, two.desired, k).Some? {
        HolderIsLeft(read, app, one, two, k);
      }
    }
  }

  /** What has to hold of a slot for the second call to get what it asked for there. */
  ghost predicate Harmless(s: SlotState, one: Slots, two: Slots, k: Slot) {
    if k in two then
      && (s.Held? ==> k in one)
      && (!s.Absent? && k in one && two[k] == s.user ==> one[k] == two[k])
    else !s.Held? ==> k !in one
  }

  ghost predicate AllHarmless(read: map<Id, Row>, app: Id, one: Slots, two: Slots) {
    forall k :: Harmless(StateOf(read, app, k), one, two, k)
  }

  lemma HarmlessIs(read: map<Id, Row>, app: Id, one: Slots, two: Slots, k: Slot)
    requires !Clash(read, app, one, two)
    ensures Harmless(StateOf(read, app, k), one, two, k) <==> Holder(StateOf(read, app, k), one, two, k) == Lookup(two, k)
  {
    assert !(k in one && k in two && !HasRow(read, app, k));
  }

  lemma HarmlessMeansMet(slots: Slots, read: map<Id, Row>, app: Id, one: Slots, two: Slots)
    requires Holders(slots, read, app, one, two) && !Clash(read, app, one, two)
    ensures slots == two <==> AllHarmless(read, app, one, two)
  {
    if slots == two {
      forall k
        ensures Harmless(StateOf(read, app, k), one, two, k)
      {
        HarmlessIs(read, app, one, two, k);
        assert Lookup(slots, k) == Lookup(two, k);
      }
    }
    if AllHarmless(read, app, one, two) {
      forall k
        ensures k in slots <==> k in two
        ensures k in slots ==> slots[k] == two[k]
      {
        HarmlessIs(read, app, one, two, k);
        assert Lookup(slots, k) == Lookup(two, k);
      }
      assert slots == two;
    }
  }

  /**
   Two overlapping calls leave exactly the second request if and only if, for every slot: a slot it wants and
   that was held was wanted by the first as well, and by the same user if the second did not change the user;
   and a slot it does not want and that was not held was not wanted by the first either.
   */
  lemma OverlapMeetsTheRequestExactly(read: map<Id, Row>, app: Id, one: Call, two: Call)
    requires Overlap(read, app, one, two) && !Clash(read, app, one.desired, two.desired)
    ensures Unique(Left(read, app, one, two))
    ensures ActiveSlots(Left(read, app, one, two), app) == two.desired <==> AllHarmless(read, app, one.desired, two.desired)
  {
    OverlapLeaves(read, app, one, two);
    HarmlessMeansMet(ActiveSlots(Left(read, app, one, two), app), read, app, one.desired, two.desired);
  }

  /** Each kind in which the two requests together leave a holder is left its Primary. */
  ghost predicate PrimariesStay(read: map<Id, Row>, app: Id, one: Slots, two: Slots) {
    forall k {:trigger Lookup(two, k)} :: Holder(StateOf(read, app, k), one, two, k).Some? ==>
      Holder(StateOf(read, app, Slot(k.kind, 1)), one, two, Slot(k.kind, 1)).Some?
  }

  lemma PrimariesStayMeansOk(slots: Slots, read: map<Id, Row>, app: Id, one: Slots, two: Slots)
    requires Holders(slots, read, app, one, two) && SlotsOk(one) && SlotsOk(two)
    ensures SlotsOk(slots) <==> PrimariesStay(read, app, one, two)
  {
    forall k {:trigger Lookup(two, k)}
      ensures k in slots <==> Holder(StateOf(read, app, k), one, two, k).Some?
      ensures k in slots ==> 1 <= k.order <= 3
    {
      assert Lookup(slots, k) == Holder(StateOf(read, app, k), one, two, k);
    }
    if PrimariesStay(read, app, one, two) {
      forall k | k in slots
        ensures Slot(k.kind, 1) in slots && 1 <= k.order <= 3
      {
        var first := Slot(k.kind, 1);
        assert Lookup(two, k) == Lookup(two, k) && Lookup(two, first) == Lookup(two, first);
      }
    } else {
      var k :| Holder(StateOf(read, app, k), one, two, k).Some?
               && Holder(StateOf(read, app, Slot(k.kind, 1)), one, two, Slot(k.kind, 1)) == None;
      assert Lookup(slots, k).Some? && Lookup(slots, Slot(k.kind, 1)) == None;
    }
  }

  /** And each kind keeps a Primary exactly when the two requests leave it one. */
  lemma OverlapKeepsPrimariesExactly(read: map<Id, Row>, app: Id, one: Call, two: Call)
    requires Overlap(read, app, one, two) && !Clash(read, app, one.desired, two.desired)
    requires SlotsOk(one.desired) && SlotsOk(two.desired)
    ensures Unique(Left(read, app, one, two))
    ensures SlotsOk(ActiveSlots(Left(read, app, one, two), app)) <==> PrimariesStay(read, app, one.desired, two.desired)
  {
    OverlapLeaves(read, app, one, two);
    PrimariesStayMeansOk(ActiveSlots(Left(read, app, one, two), app), read, app, one.desired, two.desired);
  }

  // ---- the audit trail --------------------------------------------------------------------------

  lemma ChainedEntry(audit: seq<Entry>, e: Entry)
    requires Chained(audit)
    ensures Chained(audit + [e]) <==> e.before == Recorded(audit, e.application)
  {
    if e.before == Recorded(audit, e.application) {
      AuditGrows(audit, e);
    } else {
      assert (audit + [e])[|audit|] == e && (audit + [e])[..|audit|] == audit;
    }
  }

  /**
   Two overlapping calls record the same "before". The trail stays chained if and only if the first call asked for
   what was already there, and its last entry says what is active if and only if every slot is harmless.
   */
  lemma OverlapKeepsTheTrailExactly(audit: seq<Entry>, read: map<Id, Row>, app: Id, one: Call, two: Call)
    requires Overlap(read, app, one, two) && !Clash(read, app, one.desired, two.desired)
    requires Chained(audit) && Recorded(audit, app) == ActiveSlots(read, app)
    ensures var before, left := ActiveSlots(read, app), Left(read, app, one, two);
            var trail := audit + [Entry(app, before, one.desired)] + [Entry(app, before, two.desired)];
            && (Chained(trail) <==> one.desired == before)
            && Unique(left) && (ActiveSlots(left, app) == Recorded(trail, app) <==> AllHarmless(read, app, one.desired, two.desired))
  {
    var before := ActiveSlots(read, app);
    var first := audit + [Entry(app, before, one.desired)];
    ChainedEntry(audit, Entry(app, before, one.desired));
    ChainedEntry(first, Entry(app, before, two.desired));
    OverlapMeetsTheRequestExactly(read, app, one, two);
  }

  // ---- a witness --------------------------------------------------------------------------------

  const PRIMARY: Slot := Slot(SystemApplication, 1)
  const SPONSOR: Slot := Slot(Business, 1)
  const READ: map<Id, Row> := map[1 := Row(7, PRIMARY, 20, None, 0), 2 := Row(7, SPONSOR, 30, None, 0)]
  const ONE: Call := Call(map[PRIMARY := 21], map[], 5)
  const TWO: Call := Call(map[SPONSOR := 31], map[], 6)

  lemma WitnessOverlaps()
    ensures Overlap(READ, 7, ONE, TWO) && !Clash(READ, 7, ONE.desired, TWO.desired)
  {
    assert RowOf(READ, 7, PRIMARY, 1) && RowOf(READ, 7, SPONSOR, 2);
  }

  lemma RequestsAreOk()
    ensures SlotsOk(ONE.desired) && SlotsOk(TWO.desired)
  {
  }

  lemma NoHolderNoSlots(slots: Slots)
    requires Holders(slots, READ, 7, ONE.desired, TWO.desired)
    ensures slots == map[]
  {
    forall k | k in slots
      ensures Lookup(slots, k) == None
    {
      NobodyHolds(k);
    }
    assert forall k :: k in slots ==> Lookup(slots, k).Some?;
  }

  /** Two calls, each of them in order, that together leave the Application without any owner. */
  lemma OverlappingCallsMix()
    ensures Overlap(READ, 7, ONE, TWO) && SlotsOk(ONE.desired) && SlotsOk(TWO.desired)
    ensures Unique(Left(READ, 7, ONE, TWO)) && ActiveSlots(Left(READ, 7, ONE, TWO), 7) == map[]
  {
    WitnessOverlaps();
    RequestsAreOk();
    OverlapLeaves(READ, 7, ONE, TWO);
    NoHolderNoSlots(ActiveSlots(Left(READ, 7, ONE, TWO), 7));
  }

  lemma NobodyHolds(k: Slot)
    ensures Holder(StateOf(READ, 7, k), ONE.desired, TWO.desired, k) == None
  {
    StateIs(READ, 7, 1);
    StateIs(READ, 7, 2);
  }
}
