/** Owner slots of Applications: a full-replace write that updates rows in place, because slots are unique for ever. */
module OwnerSlots {
  import opened Prelude

  type Id = nat
  type Time = int

  datatype Kind = SystemApplication | Business

  datatype Slot = Slot(kind: Kind, order: int)

  datatype Row = Row(application: Id, slot: Slot, user: Id, deletedAt: Option<Time>, updatedAt: Time)

  datatype Owner = Owner(slot: Slot, user: Id)

  type Slots = map<Slot, Id>

  /** An audit row: the active slots before and after. */
  datatype Entry = Entry(application: Id, before: Slots, after: Slots)

  datatype Error =
    | AuthorizationRequired | ApplicationNotFound | OwnerLimit | PrimaryRequired | UserNotFound | ConstraintViolated

  ghost predicate SameSlot(rows: map<Id, Row>, a: Id, b: Id) {
    a in rows && b in rows && rows[a].application == rows[b].application && rows[a].slot == rows[b].slot
  }

  /** No slot of an Application has two rows, soft-deleted ones included. */
  ghost predicate Unique(rows: map<Id, Row>) {
    forall a, b {:trigger SameSlot(rows, a, b)} :: SameSlot(rows, a, b) ==> a == b
  }

  ghost predicate Holds(rows: map<Id, Row>, app: Id, k: Slot, id: Id) {
    id in rows && rows[id].application == app && rows[id].slot == k && rows[id].deletedAt == None
  }

  ghost function HeldSlots(rows: map<Id, Row>, app: Id): set<Slot> {
    set id | id in rows && Holds(rows, app, rows[id].slot, id) :: rows[id].slot
  }

  ghost function HolderOf(rows: map<Id, Row>, app: Id, k: Slot): Id
    requires k in HeldSlots(rows, app)
  {
    var id :| Holds(rows, app, k, id);
    rows[id].user
  }

  /** The slots of an Application that somebody holds. */
  ghost function ActiveSlots(rows: map<Id, Row>, app: Id): Slots {
    map k | k in HeldSlots(rows, app) :: HolderOf(rows, app, k)
  }

  lemma HeldRow(rows: map<Id, Row>, app: Id, k: Slot) returns (id: Id)
    requires k in HeldSlots(rows, app)
    ensures id in rows && rows[id].application == app && rows[id].slot == k && rows[id].deletedAt == None
  {
    id :| id in rows && Holds(rows, app, k, id);
    assert Holds(rows, app, k, id);
  }

  /** Where slots are unique, the active ones can be read off the rows. */
  lemma HolderIs(rows: map<Id, Row>, app: Id, k: Slot, id: Id)
    requires Unique(rows) && Holds(rows, app, k, id)
    ensures k in ActiveSlots(rows, app) && ActiveSlots(rows, app)[k] == rows[id].user
  {
    forall other | Holds(rows, app, k, other)
      ensures other == id
    {
      assert SameSlot(rows, other, id);
    }
  }

  lemma AreTheSlots(rows: map<Id, Row>, app: Id, slots: Slots)
    requires Unique(rows)
    requires forall k, id :: Holds(rows, app, k, id) ==> k in slots && rows[id].user == slots[k]
    requires forall k :: k in slots ==> exists id :: Holds(rows, app, k, id)
    ensures ActiveSlots(rows, app) == slots
  {
    forall k | k in slots
      ensures k in ActiveSlots(rows, app) && ActiveSlots(rows, app)[k] == slots[k]
    {
      var id :| Holds(rows, app, k, id);
      HolderIs(rows, app, k, id);
    }
  }

  /** What a request asks for; of two entries for one slot the later one counts. */
  function Requested(owners: seq<Owner>): Slots {
    if owners == [] then map[] else Requested(owners[..|owners| - 1])[owners[|owners| - 1].slot := owners[|owners| - 1].user]
  }

  lemma {:induction false} LaterOwnerCounts(owners: seq<Owner>, k: nat)
    requires k < |owners| && forall l :: k < l < |owners| ==> owners[l].slot != owners[k].slot
    ensures owners[k].slot in Requested(owners) && Requested(owners)[owners[k].slot] == owners[k].user
  {
    if k < |owners| - 1 {
      LaterOwnerCounts(owners[..|owners| - 1], k);
    }
  }

  lemma {:induction false} OnlyOwnersCount(owners: seq<Owner>, slot: Slot)
    requires slot in Requested(owners)
    ensures exists k :: 0 <= k < |owners| && owners[k].slot == slot && owners[k].user == Requested(owners)[slot]
  {
    var last := owners[|owners| - 1];
    if last.slot != slot {
      OnlyOwnersCount(owners[..|owners| - 1], slot);
      var k :| 0 <= k < |owners| - 1 && owners[..|owners| - 1][k].slot == slot && owners[..|owners| - 1][k].user == Requested(owners)[slot];
      assert owners[k].slot == slot;
    }
  }

  function Orders(owners: seq<Owner>, kind: Kind): (orders: set<int>)
    ensures forall n :: n in orders <==> exists o :: o in owners && o.slot == Slot(kind, n)
  {
    var orders := set o | o in owners && o.slot.kind == kind :: o.slot.order;
    assert forall n, o :: o in owners && o.slot == Slot(kind, n) ==> o.slot.order in orders;
    orders
  }

  /** At most three orders for each kind, the Primary among them. */
  ghost predicate KindOk(orders: set<int>) {
    orders != {} ==> |orders| <= 3 && 1 in orders
  }

  ghost predicate Acceptable(owners: seq<Owner>, activeUsers: set<Id>) {
    && KindOk(Orders(owners, SystemApplication)) && KindOk(Orders(owners, Business))
    && forall o :: o in owners ==> o.user in activeUsers && 1 <= o.slot.order <= 3
  }

  // ---- the two loops over the rows --------------------------------------------------------------

  /** `index` is the dictionary of an Application's rows by slot. */
  ghost predicate Indexed(rows: map<Id, Row>, app: Id, index: map<Slot, Id>) {
    && (forall k :: k in index ==> index[k] in rows && rows[index[k]].application == app && rows[index[k]].slot == k)
    && (forall id :: id in rows && rows[id].application == app ==> rows[id].slot in index && index[rows[id].slot] == id)
  }

  method IndexRows(rows: map<Id, Row>, app: Id) returns (index: map<Slot, Id>)
    requires Unique(rows)
    ensures Indexed(rows, app, index)
  {
    index := map[];
    var rest := rows.Keys;
    while rest != {}
      invariant rest <= rows.Keys
      invariant forall k :: k in index ==> index[k] in rows && rows[index[k]].application == app && rows[index[k]].slot == k
      invariant forall id :: id in rows && id !in rest && rows[id].application == app ==>
                  rows[id].slot in index && index[rows[id].slot] == id
      decreases rest
    {
      var id :| id in rest;
      rest := rest - {id};
      if rows[id].application == app {
        forall b | b in rows && rows[b].application == app && rows[b].slot == rows[id].slot
          ensures b == id
        {
          assert SameSlot(rows, id, b);
        }
        index := index[rows[id].slot := id];
      }
    }
  }

  /** The row once slots outside the request have been given up. */
  ghost function Retired(r: Row, app: Id, desired: Slots, now: Time): Row {
    if r.application == app && r.slot !in desired && r.deletedAt == None then r.(deletedAt := Some(now), updatedAt := now) else r
  }

  method Retire(rows: map<Id, Row>, app: Id, index: map<Slot, Id>, desired: Slots, now: Time) returns (after: map<Id, Row>)
    requires Indexed(rows, app, index)
    ensures after == map id | id in rows :: Retired(rows[id], app, desired, now)
  {
    after := rows;
    var rest := index.Keys;
    while rest != {}
      invariant rest <= index.Keys && after.Keys == rows.Keys
      invariant forall id :: id in rows ==>
                  after[id] == if rows[id].application == app && rows[id].slot in rest then rows[id]
                               else Retired(rows[id], app, desired, now)
      decreases rest
    {
      var k :| k in rest;
      rest := rest - {k};
      var id := index[k];
      if k !in desired && after[id].deletedAt == None {
        after := after[id := after[id].(deletedAt := Some(now), updatedAt := now)];
      }
    }
  }

  /** The slots in `done` are held as requested, the others and the other Applications are as they were. */
  ghost predicate Upserted(rows: map<Id, Row>, after: map<Id, Row>, app: Id, index: map<Slot, Id>, desired: Slots, done: set<Slot>,
                           now: Time) {
    && Indexed(after, app, index)
    && (forall id :: id in rows ==> id in after && after[id].slot == rows[id].slot && after[id].application == rows[id].application)
    && (forall id :: id in rows && !(rows[id].application == app && rows[id].slot in done) ==> after[id] == rows[id])
    && (forall id :: id in after && id !in rows ==> after[id].application == app && after[id].slot in done)
    && (forall k :: k in done ==> k in index && k in desired && after[index[k]] == Row(app, k, desired[k], None, now))
  }

  lemma UpsertOne(rows: map<Id, Row>, mid: map<Id, Row>, app: Id, index: map<Slot, Id>, desired: Slots, done: set<Slot>,
                  k: Slot, id: Id, now: Time)
    requires Upserted(rows, mid, app, index, desired, done, now) && k in desired && k !in done
    requires if k in index then id == index[k] else id !in mid
    ensures Upserted(rows, mid[id := Row(app, k, desired[k], None, now)], app, index[k := id], desired, done + {k}, now)
  {
  }

  method Upsert(rows: map<Id, Row>, app: Id, index0: map<Slot, Id>, desired: Slots, nextRow: Id, now: Time)
    returns (after: map<Id, Row>, next: Id, ghost index: map<Slot, Id>)
    requires Indexed(rows, app, index0) && forall id :: id in rows ==> id < nextRow
    ensures Upserted(rows, after, app, index, desired, desired.Keys, now)
    ensures nextRow <= next && forall id :: id in after ==> id < next
  {
    after, next, index := rows, nextRow, index0;
    var rest := desired.Keys;
    while rest != {}
      invariant rest <= desired.Keys && Upserted(rows, after, app, index, desired, desired.Keys - rest, now)
      invariant nextRow <= next && forall id :: id in after ==> id < next
      invariant forall k :: k in rest && k in index ==> k in index0 && index[k] == index0[k]
      invariant forall k :: k in index0 ==> k in index && index[k] == index0[k]
      decreases rest
    {
      var k :| k in rest;
      ghost var done := desired.Keys - rest;
      rest := rest - {k};
      assert desired.Keys - rest == done + {k};
      if k in index0 {
        var row := after[index0[k]].(user := desired[k], deletedAt := None, updatedAt := now);
        UpsertOne(rows, after, app, index, desired, done, k, index0[k], now);
        assert index[k := index0[k]] == index;
        after := after[index0[k] := row];
      } else {
        UpsertOne(rows, after, app, index, desired, done, k, next, now);
        after := after[next := Row(app, k, desired[k], None, now)];
        index := index[k := next];
        next := next + 1;
      }
    }
    assert desired.Keys - rest == desired.Keys;
  }

  /**
   Row by row: slots in the request are held as it says, the Application's other held slots are given up, all else
   is as before; and there is one new row for each slot of the request that had none.
   */
  ghost predicate Rewritten(rows: map<Id, Row>, after: map<Id, Row>, app: Id, desired: Slots, now: Time) {
    && (forall id :: id in rows ==>
          id in after &&
          after[id] == if rows[id].application == app && rows[id].slot in desired then Row(app, rows[id].slot, desired[rows[id].slot], None, now)
                       else if rows[id].application == app && rows[id].deletedAt == None then rows[id].(deletedAt := Some(now), updatedAt := now)
                       else rows[id])
    && (forall id :: id in after && id !in rows ==> after[id].slot in desired && after[id] == Row(app, after[id].slot, desired[after[id].slot], None, now))
    && (forall a, b :: a in after && b in after && a !in rows && after[a].application == after[b].application && after[a].slot == after[b].slot ==> a == b)
    && (forall k :: k in desired ==> exists id :: id in after && after[id] == Row(app, k, desired[k], None, now))
  }

  lemma UpsertedRewrites(rows: map<Id, Row>, mid: map<Id, Row>, after: map<Id, Row>, app: Id, index: map<Slot, Id>, desired: Slots, now: Time)
    requires mid == (map id | id in rows :: Retired(rows[id], app, desired, now))
    requires Upserted(mid, after, app, index, desired, desired.Keys, now)
    ensures Rewritten(rows, after, app, desired, now)
  {
    forall id | id in rows
      ensures id in after
      ensures after[id] == if rows[id].application == app && rows[id].slot in desired then Row(app, rows[id].slot, desired[rows[id].slot], None, now)
                           else if rows[id].application == app && rows[id].deletedAt == None then rows[id].(deletedAt := Some(now), updatedAt := now)
                           else rows[id]
    {
      assert mid[id] == Retired(rows[id], app, desired, now);
    }
    forall k | k in desired
      ensures exists id :: id in after && after[id] == Row(app, k, desired[k], None, now)
    {
      assert index[k] in after;
    }
  }

  // ---- what the two loops come to ---------------------------------------------------------------

  lemma ReplacedIsUnique(rows: map<Id, Row>, app: Id, index0: map<Slot, Id>, desired: Slots, now: Time, mid: map<Id, Row>,
                         after: map<Id, Row>, index: map<Slot, Id>)
    requires Unique(rows) && mid == (map id | id in rows :: Retired(rows[id], app, desired, now))
    requires Upserted(mid, after, app, index, desired, desired.Keys, now)
    ensures Unique(after)
  {
    forall a, b | SameSlot(after, a, b)
      ensures a == b
    {
      if after[a].application != app {
        assert SameSlot(rows, a, b);
      }
    }
  }

  lemma ReplacedSlots(rows: map<Id, Row>, app: Id, desired: Slots, now: Time, mid: map<Id, Row>, after: map<Id, Row>, index: map<Slot, Id>)
    requires Unique(rows) && Unique(after) && mid == (map id | id in rows :: Retired(rows[id], app, desired, now))
    requires Upserted(mid, after, app, index, desired, desired.Keys, now)
    ensures ActiveSlots(after, app) == desired
  {
    forall k | k in desired
      ensures exists id :: Holds(after, app, k, id)
    {
      assert Holds(after, app, k, index[k]);
    }
    forall k, id | Holds(after, app, k, id)
      ensures k in desired && after[id].user == desired[k]
    {
      assert k in index && index[k] == id;
    }
    AreTheSlots(after, app, desired);
  }

  lemma OthersKeepRows(rows: map<Id, Row>, app: Id, desired: Slots, now: Time, mid: map<Id, Row>, after: map<Id, Row>,
                       index: map<Slot, Id>, id: Id)
    requires mid == (map id | id in rows :: Retired(rows[id], app, desired, now))
    requires Upserted(mid, after, app, index, desired, desired.Keys, now)
    requires id in rows && rows[id].application != app
    ensures id in after && after[id] == rows[id]
  {
    assert mid[id] == rows[id];
  }

  lemma OtherStillHeld(rows: map<Id, Row>, app: Id, desired: Slots, now: Time, mid: map<Id, Row>, after: map<Id, Row>,
                       index: map<Slot, Id>, other: Id, k: Slot)
    requires mid == (map id | id in rows :: Retired(rows[id], app, desired, now))
    requires Upserted(mid, after, app, index, desired, desired.Keys, now) && other != app && k in HeldSlots(rows, other)
    ensures exists id :: Holds(after, other, k, id)
  {
    var held := HeldRow(rows, other, k);
    OthersKeepRows(rows, app, desired, now, mid, after, index, held);
    assert Holds(after, other, k, held);
  }

  lemma OthersKeepSlots(rows: map<Id, Row>, app: Id, desired: Slots, now: Time, mid: map<Id, Row>, after: map<Id, Row>,
                        index: map<Slot, Id>, other: Id)
    requires Unique(rows) && Unique(after) && mid == (map id | id in rows :: Retired(rows[id], app, desired, now))
    requires Upserted(mid, after, app, index, desired, desired.Keys, now) && other != app
    ensures ActiveSlots(after, other) == ActiveSlots(rows, other)
  {
    forall k, id | Holds(after, other, k, id)
      ensures k in ActiveSlots(rows, other) && after[id].user == ActiveSlots(rows, other)[k]
    {
      HolderIs(rows, other, k, id);
    }
    forall k | k in ActiveSlots(rows, other)
      ensures exists id :: Holds(after, other, k, id)
    {
      OtherStillHeld(rows, app, desired, now, mid, after, index, other, k);
    }
    AreTheSlots(after, other, ActiveSlots(rows, other));
  }

  // ---- the history ------------------------------------------------------------------------------

  /** The active slots that the last audit row of an Application records. */
  ghost function Recorded(audit: seq<Entry>, app: Id): Slots {
    if audit == [] then map[]
    else if audit[|audit| - 1].application == app then audit[|audit| - 1].after
    else Recorded(audit[..|audit| - 1], app)
  }

  /** Each audit row's "before" is what the previous one of the same Application left. */
  ghost predicate Chained(audit: seq<Entry>) {
    forall i :: 0 <= i < |audit| ==> audit[i].before == Recorded(audit[..i], audit[i].application)
  }

  /** Each kind is empty or has its Primary; orders run from 1 to 3. */
  ghost predicate SlotsOk(slots: Slots) {
    && (forall k :: k in slots ==> 1 <= k.order <= 3)
    && (forall k :: k in slots ==> Slot(k.kind, 1) in slots)
  }

  lemma RequestedOk(owners: seq<Owner>, activeUsers: set<Id>)
    requires Acceptable(owners, activeUsers)
    ensures SlotsOk(Requested(owners))
  {
    forall slot | slot in Requested(owners)
      ensures 1 <= slot.order <= 3 && Slot(slot.kind, 1) in Requested(owners)
    {
      OnlyOwnersCount(owners, slot);
      var k :| 0 <= k < |owners| && owners[k].slot == slot;
      assert owners[k] in owners && slot.order in Orders(owners, slot.kind);
      assert 1 in Orders(owners, slot.kind);
      var o :| o in owners && o.slot == Slot(slot.kind, 1);
      Mentioned(owners, o);
    }
  }

  lemma {:induction false} Mentioned(owners: seq<Owner>, o: Owner)
    requires o in owners
    ensures o.slot in Requested(owners)
  {
    if o != owners[|owners| - 1] {
      Mentioned(owners[..|owners| - 1], o);
    }
  }

  ghost predicate Agrees(rows: map<Id, Row>, audit: seq<Entry>, app: Id)
    requires Unique(rows)
  {
    ActiveSlots(rows, app) == Recorded(audit, app) && SlotsOk(Recorded(audit, app))
  }

  lemma BeforeIs(rows: map<Id, Row>, app: Id, index: map<Slot, Id>, before: Slots)
    requires Unique(rows) && Indexed(rows, app, index)
    requires before == map k | k in index && rows[index[k]].deletedAt == None :: rows[index[k]].user
    ensures before == ActiveSlots(rows, app)
  {
    forall k | k in before
      ensures exists id :: Holds(rows, app, k, id)
    {
      assert Holds(rows, app, k, index[k]);
    }
    AreTheSlots(rows, app, before);
  }

  lemma AuditGrows(audit: seq<Entry>, e: Entry)
    requires Chained(audit) && e.before == Recorded(audit, e.application)
    ensures Chained(audit + [e])
    ensures forall app {:trigger Recorded(audit + [e], app)} ::
              Recorded(audit + [e], app) == if app == e.application then e.after else Recorded(audit, app)
  {
    assert (audit + [e])[..|audit|] == audit;
    forall i | 0 <= i < |audit|
      ensures (audit + [e])[i].before == Recorded((audit + [e])[..i], (audit + [e])[i].application)
    {
      assert (audit + [e])[..i] == audit[..i];
    }
  }

  /** Rows, ids and audit trail of all Applications fit together. */
  ghost predicate Sound(rows: map<Id, Row>, nextRow: Id, audit: seq<Entry>) {
    && Unique(rows) && (forall id :: id in rows ==> id < nextRow) && Chained(audit) && AllAgree(rows, audit)
  }

  ghost predicate AllAgree(rows: map<Id, Row>, audit: seq<Entry>)
    requires Unique(rows)
  {
    forall app :: Agrees(rows, audit, app)
  }

  lemma NoRowsNoSlots(app: Id)
    ensures ActiveSlots(map[], app) == map[]
  {
  }

  lemma NothingIsSound()
    ensures Sound(map[], 0, [])
  {
    forall app
      ensures Agrees(map[], [], app)
    {
      NoRowsNoSlots(app);
    }
  }

  ghost predicate SlotsKept(rows: map<Id, Row>, after: map<Id, Row>, app: Id)
    requires Unique(rows) && Unique(after)
  {
    ActiveSlots(after, app) == ActiveSlots(rows, app)
  }

  /** One Application has exactly these active slots, the others have theirs, and no row was lost or re-keyed. */
  ghost predicate Replaced(rows: map<Id, Row>, after: map<Id, Row>, app: Id, desired: Slots) {
    && Unique(rows) && Unique(after) && ActiveSlots(after, app) == desired
    && (forall other :: other != app ==> SlotsKept(rows, after, other))
    && (forall id :: id in rows ==>
          id in after && after[id].application == rows[id].application && after[id].slot == rows[id].slot)
  }

  lemma ReplacedBy(rows: map<Id, Row>, app: Id, index0: map<Slot, Id>, desired: Slots, now: Time, mid: map<Id, Row>,
                   after: map<Id, Row>, index: map<Slot, Id>)
    requires Unique(rows) && mid == (map id | id in rows :: Retired(rows[id], app, desired, now))
    requires Upserted(mid, after, app, index, desired, desired.Keys, now)
    ensures Replaced(rows, after, app, desired)
  {
    ReplacedIsUnique(rows, app, index0, desired, now, mid, after, index);
    ReplacedSlots(rows, app, desired, now, mid, after, index);
    forall other | other != app
      ensures SlotsKept(rows, after, other)
    {
      OthersKeepSlots(rows, app, desired, now, mid, after, index, other);
    }
  }

  lemma ReplacedIsSound(rows: map<Id, Row>, nextRow: Id, audit: seq<Entry>, after: map<Id, Row>, next: Id, app: Id, desired: Slots)
    requires Sound(rows, nextRow, audit) && Replaced(rows, after, app, desired) && SlotsOk(desired)
    requires forall id :: id in after ==> id < next
    ensures Sound(after, next, audit + [Entry(app, ActiveSlots(rows, app), desired)])
  {
    var e := Entry(app, ActiveSlots(rows, app), desired);
    assert Agrees(rows, audit, app);
    AuditGrows(audit, e);
    forall other
      ensures Agrees(after, audit + [e], other)
    {
      assert Agrees(rows, audit, other);
      assert other != app ==> SlotsKept(rows, after, other);
    }
  }

  ghost predicate KindRefused(orders: set<int>, e: Error) {
    (e == OwnerLimit && |orders| > 3) || (e == PrimaryRequired && orders != {} && |orders| <= 3 && 1 !in orders)
  }

  ghost function FirstKind(owners: seq<Owner>): Kind {
    if owners == [] then SystemApplication else owners[0].slot.kind
  }

  ghost function OtherKind(kind: Kind): Kind {
    if kind == SystemApplication then Business else SystemApplication
  }

  /** The kinds in the order the request names them first, then the users; orders out of range break a constraint. */
  method CheckOwners(owners: seq<Owner>, activeUsers: set<Id>) returns (refused: Option<Error>)
    ensures refused == None <==> Acceptable(owners, activeUsers)
    ensures refused.Some? ==> refused.value != AuthorizationRequired && refused.value != ApplicationNotFound
    ensures forall e :: KindRefused(Orders(owners, FirstKind(owners)), e) ==> refused == Some(e)
    ensures forall e :: KindOk(Orders(owners, FirstKind(owners))) && KindRefused(Orders(owners, OtherKind(FirstKind(owners))), e) ==> refused == Some(e)
    ensures var kindsOk := KindOk(Orders(owners, SystemApplication)) && KindOk(Orders(owners, Business));
            && (refused == Some(UserNotFound) <==> kindsOk && exists o :: o in owners && o.user !in activeUsers)
            && (refused == Some(ConstraintViolated) <==>
                  kindsOk && (forall o :: o in owners ==> o.user in activeUsers) && exists o :: o in owners && !(1 <= o.slot.order <= 3))
  {
    var first := if owners == [] then SystemApplication else owners[0].slot.kind;
    for i := 0 to 2
      invariant i > 0 ==> KindOk(Orders(owners, first))
      invariant i > 1 ==> KindOk(Orders(owners, SystemApplication)) && KindOk(Orders(owners, Business))
    {
      var kind := if i == 0 then first else if first == SystemApplication then Business else SystemApplication;
      var orders := Orders(owners, kind);
      if orders != {} {
        if |orders| > 3 { return Some(OwnerLimit); }
        if 1 !in orders { return Some(PrimaryRequired); }
      }
    }
    if exists o <- owners :: o.user !in activeUsers { return Some(UserNotFound); }
    if exists o <- owners :: !(1 <= o.slot.order <= 3) { return Some(ConstraintViolated); }
    refused := None;
  }

  /** Give up the slots outside the request, write the others in place, add rows for new ones, then audit. */
  method Replace(rows: map<Id, Row>, nextRow: Id, audit: seq<Entry>, app: Id, owners: seq<Owner>, ghost activeUsers: set<Id>, now: Time)
    returns (after: map<Id, Row>, next: Id, audit': seq<Entry>)
    requires Sound(rows, nextRow, audit) && Acceptable(owners, activeUsers)
    ensures Sound(after, next, audit') && Replaced(rows, after, app, Requested(owners))
    ensures Rewritten(rows, after, app, Requested(owners), now)
    ensures audit' == audit + [Entry(app, ActiveSlots(rows, app), Requested(owners))]
  {
    var desired := Requested(owners);
    var index := IndexRows(rows, app);
    var before := map k | k in index && rows[index[k]].deletedAt == None :: rows[index[k]].user;
    BeforeIs(rows, app, index, before);
    var mid := Retire(rows, app, index, desired, now);
    ghost var index';
    after, next, index' := Upsert(mid, app, index, desired, nextRow, now);
    ReplacedBy(rows, app, index, desired, now, mid, after, index');
    UpsertedRewrites(rows, mid, after, app, index', desired, now);
    RequestedOk(owners, activeUsers);
    ReplacedIsSound(rows, nextRow, audit, after, next, app, desired);
    audit' := audit + [Entry(app, before, desired)];
  }

  class OwnerStore {
    var applications: set<Id>
    var rows: map<Id, Row>
    var nextRow: Id
    var audit: seq<Entry>

    ghost predicate Valid()
      reads this
    {
      Sound(rows, nextRow, audit)
    }

    constructor (applications: set<Id>)
      ensures Valid() && rows == map[] && audit == []
    {
      this.applications := applications;
      rows, nextRow, audit := map[], 0, [];
      NothingIsSound();
    }

    /** The request becomes the sole active set of the Application, and the audit row says what it replaced. */
    method SetApplicationOwners(app: Id, owners: seq<Owner>, authorized: bool, activeUsers: set<Id>, now: Time)
      returns (r: Outcome<(), Error>)
      requires Valid()
      modifies this`rows, this`nextRow, this`audit
      ensures Valid()
      ensures r.Ok? <==> authorized && app in applications && Acceptable(owners, activeUsers)
      ensures r.Failed? ==> rows == old(rows) && audit == old(audit)
      ensures r == Failed(AuthorizationRequired) <==> !authorized
      ensures r == Failed(ApplicationNotFound) <==> authorized && app !in applications
      ensures r.Ok? ==> Replaced(old(rows), rows, app, Requested(owners)) && Rewritten(old(rows), rows, app, Requested(owners), now)
                        && audit == old(audit) + [Entry(app, ActiveSlots(old(rows), app), Requested(owners))]
    {
      if !authorized { return Failed(AuthorizationRequired); }
      if app !in applications { return Failed(ApplicationNotFound); }
      var refused := CheckOwners(owners, activeUsers);
      if refused.Some? { return Failed(refused.value); }
      rows, nextRow, audit := Replace(rows, nextRow, audit, app, owners, activeUsers, now);
      r := Ok(());
    }
  }
}
