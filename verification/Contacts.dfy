/** apps/api/src/common/reconcile-contacts.ts: bringing the stored contacts of one owner to a payload,
    write by write, under the partial unique index of one PRIMARY per owner. */
module Contacts {
  import opened Wrappers

  datatype PocLevel = PRIMARY | SECONDARY | NONE

  /** The fields every parsed payload carries. */
  datatype Details = Details(name: string, email: string, contactNo: string, whatsappAvailable: bool,
                             wechatAvailable: bool, botimAvailable: bool, active: bool)

  /** A contact of the payload: the two optional fields may be missing. */
  datatype ContactUpsert = ContactUpsert(id: Option<string>, details: Details, designation: Option<string>, pocLevel: PocLevel) {
    /** An empty id is as good as none when the rows are written. */
    predicate Addressed() {
      id.Some? && id.value != ""
    }

    predicate IsPrimary() {
      pocLevel == PRIMARY
    }
  }

  datatype Contact = Contact(owner: string, details: Details, designation: Option<string>, pocLevel: PocLevel)

  type Rows = map<string, Contact>

  datatype Outcome = Reconciled | PrimaryDuplicate | ContactNotFound

  /** The partial unique index: no owner has two PRIMARY contacts. */
  ghost predicate OnePrimary(rows: Rows) {
    forall a, b :: a in rows && b in rows && IsPrimaryOf(rows[a], rows[b].owner) && rows[b].pocLevel == PRIMARY ==> a == b
  }

  predicate IsPrimaryOf(row: Contact, owner: string) {
    row.owner == owner && row.pocLevel == PRIMARY
  }

  /** An UPDATE writes the fields that are present and leaves the others as they were. */
  function Updated(row: Contact, c: ContactUpsert): Contact {
    Contact(row.owner, c.details, if c.designation.Some? then c.designation else row.designation, c.pocLevel)
  }

  function Inserted(owner: string, c: ContactUpsert): Contact {
    Contact(owner, c.details, c.designation, c.pocLevel)
  }

  /** The contacts with a property, as positions in the payload. */
  function Positions(contacts: seq<ContactUpsert>, p: ContactUpsert -> bool): (at: seq<nat>)
    ensures forall k :: 0 <= k < |at| ==> at[k] < |contacts| && p(contacts[at[k]])
    ensures forall i: nat :: i < |contacts| && p(contacts[i]) ==> i in at
    ensures forall j, k :: 0 <= j < k < |at| ==> at[j] < at[k]
  {
    if contacts == [] then []
    else
      var last: nat := |contacts| - 1;
      var rest := Positions(contacts[..last], p);
      if p(contacts[last]) then rest + [last] else rest
  }

  function Primaries(contacts: seq<ContactUpsert>): seq<nat> {
    Positions(contacts, (c: ContactUpsert) => c.IsPrimary())
  }

  /** The contacts to insert, the PRIMARY one last. */
  function CreateOrder(contacts: seq<ContactUpsert>): (order: seq<nat>)
    ensures forall k :: 0 <= k < |order| ==> order[k] < |contacts| && !contacts[order[k]].Addressed()
  {
    Positions(contacts, (c: ContactUpsert) => !c.Addressed() && !c.IsPrimary())
    + Positions(contacts, (c: ContactUpsert) => !c.Addressed() && c.IsPrimary())
  }

  /** The payload names each row at most once. */
  ghost predicate DistinctIds(contacts: seq<ContactUpsert>) {
    forall i, j :: 0 <= i < j < |contacts| && contacts[i].Addressed() ==> contacts[i].id != contacts[j].id
  }

  /** Ids the database can hand out: new, and never twice. */
  ghost predicate Unused(rows: Rows, newIds: seq<string>) {
    && (forall j :: 0 <= j < |newIds| ==> newIds[j] !in rows && newIds[j] != "")
    && (forall i, j :: 0 <= i < j < |newIds| ==> newIds[i] != newIds[j])
  }

  ghost predicate Owns(rows: Rows, owner: string, id: string) {
    id in rows && rows[id].owner == owner
  }

  ghost predicate NamesOnlyOwn(rows: Rows, owner: string, contacts: seq<ContactUpsert>) {
    forall i :: 0 <= i < |contacts| && contacts[i].id.Some? ==> Owns(rows, owner, contacts[i].id.value)
  }

  /** What a payload comes to, decided before the first write. */
  ghost function Verdict(rows: Rows, owner: string, contacts: seq<ContactUpsert>): Outcome {
    if |Primaries(contacts)| > 1 then PrimaryDuplicate
    else if !NamesOnlyOwn(rows, owner, contacts) then ContactNotFound
    else Reconciled
  }

  ghost predicate Names(contacts: seq<ContactUpsert>, id: string) {
    exists i :: 0 <= i < |contacts| && contacts[i].id == Some(id)
  }

  // The rows between the writes.

  /** After the delete: what the payload names, and every other owner's rows. */
  ghost function Kept(rows: Rows, owner: string, contacts: seq<ContactUpsert>): Rows {
    map id | id in rows && (rows[id].owner == owner ==> Names(contacts, id)) :: rows[id]
  }

  predicate InPass(c: ContactUpsert, primary: bool) {
    c.Addressed() && c.IsPrimary() == primary
  }

  /** After the first n contacts of the demotion pass or of the promotion pass. */
  function AfterPass(rows: Rows, contacts: seq<ContactUpsert>, primary: bool, n: nat): Rows
    requires n <= |contacts|
  {
    if n == 0 then rows
    else
      var prev := AfterPass(rows, contacts, primary, n - 1);
      var c := contacts[n - 1];
      if InPass(c, primary) && c.id.value in prev then prev[c.id.value := Updated(prev[c.id.value], c)] else prev
  }

  /** After the first n inserts. */
  function AfterCreates(rows: Rows, owner: string, contacts: seq<ContactUpsert>, newIds: seq<string>, n: nat): Rows
    requires n <= |CreateOrder(contacts)| <= |newIds|
  {
    if n == 0 then rows
    else AfterCreates(rows, owner, contacts, newIds, n - 1)[newIds[n - 1] := Inserted(owner, contacts[CreateOrder(contacts)[n - 1]])]
  }

  ghost function AfterUpdates(rows: Rows, owner: string, contacts: seq<ContactUpsert>): Rows {
    AfterPass(AfterPass(Kept(rows, owner, contacts), contacts, false, |contacts|), contacts, true, |contacts|)
  }

  /** After all four steps. */
  ghost function FinalRows(rows: Rows, owner: string, contacts: seq<ContactUpsert>, newIds: seq<string>): Rows
    requires |CreateOrder(contacts)| <= |newIds|
  {
    AfterCreates(AfterUpdates(rows, owner, contacts), owner, contacts, newIds, |CreateOrder(contacts)|)
  }

  // At most one PRIMARY in between.

  lemma PrimaryIsUnique(contacts: seq<ContactUpsert>, i: nat, j: nat)
    requires |Primaries(contacts)| <= 1 && i < |contacts| && j < |contacts| && contacts[i].IsPrimary() && contacts[j].IsPrimary()
    ensures i == j
  {
    assert i in Primaries(contacts) && j in Primaries(contacts);
  }

  /** A write that makes no second PRIMARY of its owner keeps the index. */
  lemma WriteKeepsIndex(rows: Rows, id: string, row: Contact)
    requires OnePrimary(rows)
    requires row.pocLevel == PRIMARY ==> forall other :: other in rows && IsPrimaryOf(rows[other], row.owner) ==> other == id
    ensures OnePrimary(rows[id := row])
  {
  }

  /** A pass rewrites only rows the payload addresses, and never their owner. */
  lemma {:induction false} PassFrame(rows: Rows, contacts: seq<ContactUpsert>, primary: bool, n: nat)
    requires n <= |contacts|
    ensures AfterPass(rows, contacts, primary, n).Keys == rows.Keys
    ensures forall id :: id in rows ==> AfterPass(rows, contacts, primary, n)[id].owner == rows[id].owner
    ensures forall id :: id in rows && !Names(contacts, id) ==> AfterPass(rows, contacts, primary, n)[id] == rows[id]
  {
    if n > 0 {
      PassFrame(rows, contacts, primary, n - 1);
    }
  }

  /** Demotions make no row PRIMARY. */
  lemma {:induction false} DemotionsOnlyDemote(rows: Rows, contacts: seq<ContactUpsert>, n: nat, id: string)
    requires n <= |contacts| && id in rows
    ensures id in AfterPass(rows, contacts, false, n)
    ensures AfterPass(rows, contacts, false, n)[id].owner == rows[id].owner
    ensures AfterPass(rows, contacts, false, n)[id].pocLevel == PRIMARY ==> rows[id].pocLevel == PRIMARY
  {
    PassFrame(rows, contacts, false, n);
    if n > 0 {
      DemotionsOnlyDemote(rows, contacts, n - 1, id);
    }
  }

  lemma DemotionsKeepIndex(rows: Rows, contacts: seq<ContactUpsert>, n: nat)
    requires n <= |contacts| && OnePrimary(rows)
    ensures OnePrimary(AfterPass(rows, contacts, false, n))
  {
    PassFrame(rows, contacts, false, n);
    forall id | id in rows
      ensures AfterPass(rows, contacts, false, n)[id].owner == rows[id].owner
      ensures AfterPass(rows, contacts, false, n)[id].pocLevel == PRIMARY ==> rows[id].pocLevel == PRIMARY
    {
      DemotionsOnlyDemote(rows, contacts, n, id);
    }
  }

  lemma {:induction false} DemotedRow(rows: Rows, contacts: seq<ContactUpsert>, n: nat, i: nat)
    requires i < n <= |contacts| && InPass(contacts[i], false) && contacts[i].id.value in rows
    ensures contacts[i].id.value in AfterPass(rows, contacts, false, n)
    ensures AfterPass(rows, contacts, false, n)[contacts[i].id.value].pocLevel != PRIMARY
  {
    PassFrame(rows, contacts, false, n);
    PassFrame(rows, contacts, false, n - 1);
    if i < n - 1 {
      DemotedRow(rows, contacts, n - 1, i);
    }
  }

  /** The owner's PRIMARY row, if it has one, is the one the payload wants PRIMARY. */
  ghost predicate OnlyWantedPrimary(rows: Rows, owner: string, contacts: seq<ContactUpsert>) {
    forall id :: id in rows && IsPrimaryOf(rows[id], owner) ==>
      exists i :: 0 <= i < |contacts| && contacts[i].IsPrimary() && contacts[i].id == Some(id)
  }

  /** The demotions free the index for the promotion that follows. */
  lemma DemotionsFreeTheIndex(rows: Rows, owner: string, contacts: seq<ContactUpsert>)
    requires "" !in rows
    ensures OnlyWantedPrimary(AfterPass(Kept(rows, owner, contacts), contacts, false, |contacts|), owner, contacts)
  {
    var kept := Kept(rows, owner, contacts);
    var rows' := AfterPass(kept, contacts, false, |contacts|);
    PassFrame(kept, contacts, false, |contacts|);
    forall id | id in rows' && IsPrimaryOf(rows'[id], owner)
      ensures exists i :: 0 <= i < |contacts| && contacts[i].IsPrimary() && contacts[i].id == Some(id)
    {
      assert Names(contacts, id);
      var i: nat :| i < |contacts| && contacts[i].id == Some(id);
      if !contacts[i].IsPrimary() {
        DemotedRow(kept, contacts, |contacts|, i);
      }
    }
  }

  lemma WantedIsUnique(rows: Rows, owner: string, contacts: seq<ContactUpsert>, i: nat, id: string)
    requires OnlyWantedPrimary(rows, owner, contacts) && |Primaries(contacts)| <= 1
    requires i < |contacts| && contacts[i].IsPrimary() && id in rows && IsPrimaryOf(rows[id], owner)
    ensures contacts[i].id == Some(id)
  {
    var j: nat :| j < |contacts| && contacts[j].IsPrimary() && contacts[j].id == Some(id);
    PrimaryIsUnique(contacts, i, j);
  }

  /** One promotion, once the index is free. */
  lemma PromotionKeepsIndex(rows: Rows, owner: string, contacts: seq<ContactUpsert>, i: nat)
    requires OnePrimary(rows) && OnlyWantedPrimary(rows, owner, contacts) && |Primaries(contacts)| <= 1
    requires i < |contacts| && InPass(contacts[i], true) && contacts[i].id.value in rows && rows[contacts[i].id.value].owner == owner
    ensures var rows' := rows[contacts[i].id.value := Updated(rows[contacts[i].id.value], contacts[i])];
      OnePrimary(rows') && OnlyWantedPrimary(rows', owner, contacts)
  {
    var id := contacts[i].id.value;
    forall other | other in rows && IsPrimaryOf(rows[other], owner)
      ensures other == id
    {
      WantedIsUnique(rows, owner, contacts, i, other);
    }
    WriteKeepsIndex(rows, id, Updated(rows[id], contacts[i]));
  }

  /** The PRIMARY contact to insert, if there is one, comes last. */
  lemma PrimaryComesLast(contacts: seq<ContactUpsert>, n: nat)
    requires |Primaries(contacts)| <= 1 && n < |CreateOrder(contacts)| && contacts[CreateOrder(contacts)[n]].IsPrimary()
    ensures n == |CreateOrder(contacts)| - 1
  {
    var others := Positions(contacts, (c: ContactUpsert) => !c.Addressed() && !c.IsPrimary());
    var primaries := Positions(contacts, (c: ContactUpsert) => !c.Addressed() && c.IsPrimary());
    assert CreateOrder(contacts) == others + primaries;
    if |others| <= n < |CreateOrder(contacts)| - 1 {
      PrimaryIsUnique(contacts, primaries[n - |others|], primaries[n - |others| + 1]);
    }
  }

  lemma CreateKeepsIndex(rows: Rows, owner: string, contacts: seq<ContactUpsert>, i: nat, id: string)
    requires OnePrimary(rows) && OnlyWantedPrimary(rows, owner, contacts) && |Primaries(contacts)| <= 1
    requires "" !in rows && id !in rows && i < |contacts| && !contacts[i].Addressed()
    ensures OnePrimary(rows[id := Inserted(owner, contacts[i])])
    ensures !contacts[i].IsPrimary() ==> OnlyWantedPrimary(rows[id := Inserted(owner, contacts[i])], owner, contacts)
  {
    if contacts[i].IsPrimary() {
      forall other | other in rows && IsPrimaryOf(rows[other], owner)
        ensures false
      {
        WantedIsUnique(rows, owner, contacts, i, other);
      }
    }
    WriteKeepsIndex(rows, id, Inserted(owner, contacts[i]));
  }

  /** The order matters: promoting another contact while the owner's PRIMARY is still there breaks the
      index, whatever the rest of the payload does. */
  lemma PromotingFirstBreaksTheIndex(rows: Rows, held: string, id: string, c: ContactUpsert)
    requires held in rows && id in rows && held != id && c.IsPrimary() && IsPrimaryOf(rows[held], rows[id].owner)
    ensures !OnePrimary(rows[id := Updated(rows[id], c)])
  {
    var rows' := rows[id := Updated(rows[id], c)];
    assert IsPrimaryOf(rows'[held], rows'[id].owner) && rows'[id].pocLevel == PRIMARY;
  }

  // The final rows.

  lemma {:induction false} PassWritesOnce(rows: Rows, contacts: seq<ContactUpsert>, primary: bool, n: nat, i: nat)
    requires n <= |contacts| && DistinctIds(contacts) && i < |contacts| && contacts[i].Addressed() && contacts[i].id.value in rows
    ensures contacts[i].id.value in AfterPass(rows, contacts, primary, n)
    ensures AfterPass(rows, contacts, primary, n)[contacts[i].id.value] ==
            if i < n && InPass(contacts[i], primary) then Updated(rows[contacts[i].id.value], contacts[i]) else rows[contacts[i].id.value]
  {
    if n > 0 {
      PassWritesOnce(rows, contacts, primary, n - 1, i);
      var c := contacts[n - 1];
      if i != n - 1 && c.Addressed() {
        assert c.id != contacts[i].id;
      }
    }
  }

  /** Each row the payload addresses ends as that contact's update of the stored row. */
  lemma AddressedRow(rows: Rows, owner: string, contacts: seq<ContactUpsert>, i: nat)
    requires Verdict(rows, owner, contacts).Reconciled? && DistinctIds(contacts) && i < |contacts| && contacts[i].Addressed()
    ensures contacts[i].id.value in rows && contacts[i].id.value in AfterUpdates(rows, owner, contacts)
    ensures AfterUpdates(rows, owner, contacts)[contacts[i].id.value] == Updated(rows[contacts[i].id.value], contacts[i])
  {
    var kept := Kept(rows, owner, contacts);
    assert Owns(rows, owner, contacts[i].id.value) && Names(contacts, contacts[i].id.value);
    PassWritesOnce(kept, contacts, false, |contacts|, i);
    PassWritesOnce(AfterPass(kept, contacts, false, |contacts|), contacts, true, |contacts|, i);
  }

  lemma UpdatesFrame(rows: Rows, owner: string, contacts: seq<ContactUpsert>)
    ensures AfterUpdates(rows, owner, contacts).Keys == Kept(rows, owner, contacts).Keys
    ensures forall id :: id in AfterUpdates(rows, owner, contacts) ==> AfterUpdates(rows, owner, contacts)[id].owner == rows[id].owner
    ensures forall id :: id in AfterUpdates(rows, owner, contacts) && !Names(contacts, id) ==>
      AfterUpdates(rows, owner, contacts)[id] == rows[id]
  {
    var kept := Kept(rows, owner, contacts);
    PassFrame(kept, contacts, false, |contacts|);
    PassFrame(AfterPass(kept, contacts, false, |contacts|), contacts, true, |contacts|);
  }

  /** Inserts leave the rows that are there alone. */
  lemma {:induction false} CreatesFrame(rows: Rows, owner: string, contacts: seq<ContactUpsert>, newIds: seq<string>, n: nat)
    requires n <= |CreateOrder(contacts)| <= |newIds| && Unused(rows, newIds)
    ensures forall id :: id in rows ==>
      id in AfterCreates(rows, owner, contacts, newIds, n) && AfterCreates(rows, owner, contacts, newIds, n)[id] == rows[id]
    ensures forall id :: id in AfterCreates(rows, owner, contacts, newIds, n) ==> id in rows || id in newIds[..n]
  {
    if n > 0 {
      CreatesFrame(rows, owner, contacts, newIds, n - 1);
      assert newIds[..n] == newIds[..n - 1] + [newIds[n - 1]];
    }
  }

  lemma {:induction false} CreatedRow(rows: Rows, owner: string, contacts: seq<ContactUpsert>, newIds: seq<string>, n: nat, k: nat)
    requires k < n <= |CreateOrder(contacts)| <= |newIds| && Unused(rows, newIds)
    ensures newIds[k] in AfterCreates(rows, owner, contacts, newIds, n)
    ensures AfterCreates(rows, owner, contacts, newIds, n)[newIds[k]] == Inserted(owner, contacts[CreateOrder(contacts)[k]])
  {
    if k < n - 1 {
      CreatedRow(rows, owner, contacts, newIds, n - 1, k);
      assert newIds[k] != newIds[n - 1];
    }
  }

  lemma OrderIsComplete(contacts: seq<ContactUpsert>, i: nat)
    requires i < |contacts| && !contacts[i].Addressed()
    ensures i in CreateOrder(contacts)
  {
    var others := Positions(contacts, (c: ContactUpsert) => !c.Addressed() && !c.IsPrimary());
    var primaries := Positions(contacts, (c: ContactUpsert) => !c.Addressed() && c.IsPrimary());
    assert i in others || i in primaries;
  }

  /** The insert that contact i is. */
  ghost function SlotOf(contacts: seq<ContactUpsert>, i: nat): (k: nat)
    requires i < |contacts| && !contacts[i].Addressed()
    ensures k < |CreateOrder(contacts)| && CreateOrder(contacts)[k] == i
  {
    OrderIsComplete(contacts, i);
    var k: nat :| k < |CreateOrder(contacts)| && CreateOrder(contacts)[k] == i;
    k
  }

  /** Where contact i ends up: its own row, or the row inserted for it. */
  ghost function PlaceOf(contacts: seq<ContactUpsert>, newIds: seq<string>, i: nat): string
    requires i < |contacts| && |CreateOrder(contacts)| <= |newIds|
  {
    if contacts[i].Addressed() then contacts[i].id.value else newIds[SlotOf(contacts, i)]
  }

  /** What contact i asks its row to be: an UPDATE leaves a missing designation as it was stored. */
  ghost function Asked(rows: Rows, owner: string, contacts: seq<ContactUpsert>, i: nat): Contact
    requires i < |contacts| && (contacts[i].Addressed() ==> contacts[i].id.value in rows)
  {
    if contacts[i].Addressed() then Updated(rows[contacts[i].id.value], contacts[i]) else Inserted(owner, contacts[i])
  }

  /** The reconciliation goes through, with ids enough for its inserts. */
  ghost predicate GoesThrough(rows: Rows, owner: string, contacts: seq<ContactUpsert>, newIds: seq<string>) {
    && Verdict(rows, owner, contacts).Reconciled? && |CreateOrder(contacts)| <= |newIds| && Unused(rows, newIds) && "" !in rows
  }

  lemma PlacedRow(rows: Rows, owner: string, contacts: seq<ContactUpsert>, newIds: seq<string>, i: nat)
    requires GoesThrough(rows, owner, contacts, newIds) && DistinctIds(contacts) && i < |contacts|
    ensures contacts[i].Addressed() ==> contacts[i].id.value in rows
    ensures PlaceOf(contacts, newIds, i) in FinalRows(rows, owner, contacts, newIds)
    ensures FinalRows(rows, owner, contacts, newIds)[PlaceOf(contacts, newIds, i)] == Asked(rows, owner, contacts, i)
  {
    UpdatesFrame(rows, owner, contacts);
    var updated := AfterUpdates(rows, owner, contacts);
    if contacts[i].Addressed() {
      AddressedRow(rows, owner, contacts, i);
      CreatesFrame(updated, owner, contacts, newIds, |CreateOrder(contacts)|);
    } else {
      CreatedRow(updated, owner, contacts, newIds, |CreateOrder(contacts)|, SlotOf(contacts, i));
    }
  }

  lemma PlacesDiffer(rows: Rows, owner: string, contacts: seq<ContactUpsert>, newIds: seq<string>, i: nat, j: nat)
    requires GoesThrough(rows, owner, contacts, newIds) && DistinctIds(contacts) && i < j < |contacts|
    ensures PlaceOf(contacts, newIds, i) != PlaceOf(contacts, newIds, j)
  {
    if contacts[i].Addressed() {
      assert Owns(rows, owner, contacts[i].id.value);
    }
    if contacts[j].Addressed() {
      assert Owns(rows, owner, contacts[j].id.value);
    }
  }

  lemma ReconciledFrame(rows: Rows, owner: string, contacts: seq<ContactUpsert>, newIds: seq<string>, id: string)
    requires GoesThrough(rows, owner, contacts, newIds) && id in FinalRows(rows, owner, contacts, newIds)
    ensures id in rows || exists k :: 0 <= k < |CreateOrder(contacts)| && newIds[k] == id
    ensures id in rows && rows[id].owner != owner ==> FinalRows(rows, owner, contacts, newIds)[id] == rows[id]
    ensures id in rows && rows[id].owner == owner ==> Names(contacts, id)
  {
    UpdatesFrame(rows, owner, contacts);
    CreatesFrame(AfterUpdates(rows, owner, contacts), owner, contacts, newIds, |CreateOrder(contacts)|);
    if id in rows && Names(contacts, id) {
      var i :| 0 <= i < |contacts| && contacts[i].id == Some(id);
      assert Owns(rows, owner, contacts[i].id.value);
    }
  }

  /** Nobody else's rows change, and every row of the owner is the place of a contact. */
  lemma EveryRowIsAPlace(rows: Rows, owner: string, contacts: seq<ContactUpsert>, newIds: seq<string>, id: string)
    requires GoesThrough(rows, owner, contacts, newIds) && id in FinalRows(rows, owner, contacts, newIds)
    requires id in rows ==> rows[id].owner == owner
    ensures exists i: nat :: i < |contacts| && PlaceOf(contacts, newIds, i) == id
  {
    ReconciledFrame(rows, owner, contacts, newIds, id);
    if id in rows {
      var i: nat :| i < |contacts| && contacts[i].id == Some(id);
      assert PlaceOf(contacts, newIds, i) == id;
    } else {
      var k: nat :| k < |CreateOrder(contacts)| && newIds[k] == id;
      SlotIs(contacts, k);
      assert PlaceOf(contacts, newIds, CreateOrder(contacts)[k]) == id;
    }
  }

  /** The order lists no contact twice. */
  lemma SlotIs(contacts: seq<ContactUpsert>, k: nat)
    requires k < |CreateOrder(contacts)|
    ensures SlotOf(contacts, CreateOrder(contacts)[k]) == k
  {
    var others := Positions(contacts, (c: ContactUpsert) => !c.Addressed() && !c.IsPrimary());
    var primaries := Positions(contacts, (c: ContactUpsert) => !c.Addressed() && c.IsPrimary());
    assert CreateOrder(contacts) == others + primaries;
  }

  /** The final rows are the payload: one row per contact, in the state that contact asks for, no other
      row of this owner, and every row of anybody else as it was. */
  lemma FinalRowsAreThePayload(rows: Rows, owner: string, contacts: seq<ContactUpsert>, newIds: seq<string>)
    requires GoesThrough(rows, owner, contacts, newIds) && DistinctIds(contacts)
    ensures forall i: nat :: i < |contacts| && contacts[i].Addressed() ==> contacts[i].id.value in rows
    ensures forall i: nat {:trigger PlaceOf(contacts, newIds, i)} :: i < |contacts| ==>
      && PlaceOf(contacts, newIds, i) in FinalRows(rows, owner, contacts, newIds)
      && FinalRows(rows, owner, contacts, newIds)[PlaceOf(contacts, newIds, i)] == Asked(rows, owner, contacts, i)
    ensures forall i: nat, j: nat :: i < j < |contacts| ==> PlaceOf(contacts, newIds, i) != PlaceOf(contacts, newIds, j)
    ensures forall id :: Owns(FinalRows(rows, owner, contacts, newIds), owner, id) ==>
      exists i: nat :: i < |contacts| && PlaceOf(contacts, newIds, i) == id
    ensures forall id :: id in rows && rows[id].owner != owner ==>
      id in FinalRows(rows, owner, contacts, newIds) && FinalRows(rows, owner, contacts, newIds)[id] == rows[id]
    ensures forall id :: id in FinalRows(rows, owner, contacts, newIds) && FinalRows(rows, owner, contacts, newIds)[id].owner != owner ==>
      id in rows
  {
    var after := FinalRows(rows, owner, contacts, newIds);
    forall i: nat | i < |contacts|
      ensures contacts[i].Addressed() ==> contacts[i].id.value in rows
      ensures PlaceOf(contacts, newIds, i) in after && after[PlaceOf(contacts, newIds, i)] == Asked(rows, owner, contacts, i)
    {
      PlacedRow(rows, owner, contacts, newIds, i);
    }
    forall i: nat, j: nat | i < j < |contacts|
      ensures PlaceOf(contacts, newIds, i) != PlaceOf(contacts, newIds, j)
    {
      PlacesDiffer(rows, owner, contacts, newIds, i, j);
    }
    forall id | id in after
      ensures after[id].owner == owner ==> exists i: nat :: i < |contacts| && PlaceOf(contacts, newIds, i) == id
      ensures after[id].owner != owner ==> id in rows
    {
      OwnerOfRow(rows, owner, contacts, newIds, id);
    }
    OthersStay(rows, owner, contacts, newIds);
  }

  lemma OwnerOfRow(rows: Rows, owner: string, contacts: seq<ContactUpsert>, newIds: seq<string>, id: string)
    requires GoesThrough(rows, owner, contacts, newIds) && DistinctIds(contacts) && id in FinalRows(rows, owner, contacts, newIds)
    ensures FinalRows(rows, owner, contacts, newIds)[id].owner == owner ==>
      exists i: nat :: i < |contacts| && PlaceOf(contacts, newIds, i) == id
    ensures FinalRows(rows, owner, contacts, newIds)[id].owner != owner ==> id in rows
  {
    if id in rows && rows[id].owner != owner {
      ReconciledFrame(rows, owner, contacts, newIds, id);
    } else {
      EveryRowIsAPlace(rows, owner, contacts, newIds, id);
      var i: nat :| i < |contacts| && PlaceOf(contacts, newIds, i) == id;
      PlacedRow(rows, owner, contacts, newIds, i);
      assert contacts[i].Addressed() ==> Owns(rows, owner, contacts[i].id.value);
    }
  }

  lemma OthersStay(rows: Rows, owner: string, contacts: seq<ContactUpsert>, newIds: seq<string>)
    requires GoesThrough(rows, owner, contacts, newIds)
    ensures forall id :: id in rows && rows[id].owner != owner ==>
      id in FinalRows(rows, owner, contacts, newIds) && FinalRows(rows, owner, contacts, newIds)[id] == rows[id]
  {
    UpdatesFrame(rows, owner, contacts);
    CreatesFrame(AfterUpdates(rows, owner, contacts), owner, contacts, newIds, |CreateOrder(contacts)|);
    forall id | id in rows && rows[id].owner != owner
      ensures id in FinalRows(rows, owner, contacts, newIds) && FinalRows(rows, owner, contacts, newIds)[id] == rows[id]
    {
      assert id in Kept(rows, owner, contacts);
      ReconciledFrame(rows, owner, contacts, newIds, id);
    }
  }

  /** Field by field: the row of each contact has this owner, the contact's details and level, and its
      designation; where that is missing, the stored one, or none on a new row. */
  lemma EveryFieldIsAsAsked(rows: Rows, owner: string, contacts: seq<ContactUpsert>, newIds: seq<string>, i: nat)
    requires GoesThrough(rows, owner, contacts, newIds) && DistinctIds(contacts) && i < |contacts|
    ensures PlaceOf(contacts, newIds, i) in FinalRows(rows, owner, contacts, newIds)
    ensures var row, c := FinalRows(rows, owner, contacts, newIds)[PlaceOf(contacts, newIds, i)], contacts[i];
      var kept := c.id.Some? && c.id.value != "";
      && row.owner == owner && row.details == c.details && row.pocLevel == c.pocLevel
      && (c.designation.Some? ==> row.designation == c.designation)
      && (c.designation.None? && kept ==> c.id.value in rows && row.designation == rows[c.id.value].designation)
      && (c.designation.None? && !kept ==> row.designation == None)
      && (kept ==> PlaceOf(contacts, newIds, i) == c.id.value) && (!kept ==> PlaceOf(contacts, newIds, i) in newIds)
  {
    PlacedRow(rows, owner, contacts, newIds, i);
    assert contacts[i].Addressed() ==> Owns(rows, owner, contacts[i].id.value);
  }

  /** Two contacts of the payload are PRIMARY. */
  ghost predicate TwoPrimaries(contacts: seq<ContactUpsert>) {
    exists i, j :: 0 <= i < j < |contacts| && contacts[i].pocLevel == PRIMARY && contacts[j].pocLevel == PRIMARY
  }

  /** Some id of the payload names no row, or somebody else's. */
  ghost predicate NamesForeign(rows: Rows, owner: string, contacts: seq<ContactUpsert>) {
    exists i :: 0 <= i < |contacts| && contacts[i].id.Some? && (contacts[i].id.value !in rows || rows[contacts[i].id.value].owner != owner)
  }

  lemma PrimariesAreCounted(contacts: seq<ContactUpsert>)
    ensures |Primaries(contacts)| > 1 <==> TwoPrimaries(contacts)
  {
    var at := Primaries(contacts);
    if |at| > 1 {
      assert contacts[at[0]].IsPrimary() && contacts[at[1]].IsPrimary() && at[0] < at[1];
    }
    if TwoPrimaries(contacts) {
      var i: nat, j: nat :| i < j < |contacts| && contacts[i].pocLevel == PRIMARY && contacts[j].pocLevel == PRIMARY;
      assert contacts[i].IsPrimary() && contacts[j].IsPrimary();
      assert i in at && j in at;
    }
  }

  /** A payload is refused for a second PRIMARY before anything else, then for a foreign id. */
  lemma VerdictExactly(rows: Rows, owner: string, contacts: seq<ContactUpsert>)
    ensures Verdict(rows, owner, contacts) == PrimaryDuplicate <==> TwoPrimaries(contacts)
    ensures Verdict(rows, owner, contacts) == ContactNotFound <==> !TwoPrimaries(contacts) && NamesForeign(rows, owner, contacts)
    ensures Verdict(rows, owner, contacts) == Reconciled <==> !TwoPrimaries(contacts) && !NamesForeign(rows, owner, contacts)
  {
    PrimariesAreCounted(contacts);
    if NamesForeign(rows, owner, contacts) {
      var i :| 0 <= i < |contacts| && contacts[i].id.Some? && (contacts[i].id.value !in rows || rows[contacts[i].id.value].owner != owner);
      assert !Owns(rows, owner, contacts[i].id.value);
    }
  }

  /** No kept contact leaves out a designation that its row has. */
  ghost predicate ClearsNoDesignation(rows: Rows, contacts: seq<ContactUpsert>) {
    forall i: nat :: i < |contacts| && contacts[i].Addressed() && contacts[i].id.value in rows && contacts[i].designation.None? ==>
      rows[contacts[i].id.value].designation.None?
  }

  /** The rows are the payload field for field exactly when the payload tries to clear no designation:
      a missing one is not written, so the stored one survives. */
  lemma RowsEqualThePayloadExactlyWhen(rows: Rows, owner: string, contacts: seq<ContactUpsert>, newIds: seq<string>)
    requires GoesThrough(rows, owner, contacts, newIds) && DistinctIds(contacts)
    ensures ClearsNoDesignation(rows, contacts) <==>
            forall i: nat {:trigger PlaceOf(contacts, newIds, i)} :: i < |contacts| ==>
              && PlaceOf(contacts, newIds, i) in FinalRows(rows, owner, contacts, newIds)
              && FinalRows(rows, owner, contacts, newIds)[PlaceOf(contacts, newIds, i)] == Inserted(owner, contacts[i])
  {
    FinalRowsAreThePayload(rows, owner, contacts, newIds);
    forall i: nat | i < |contacts| && contacts[i].Addressed()
      ensures rows[contacts[i].id.value].owner == owner
    {
      assert Owns(rows, owner, contacts[i].id.value);
    }
    if !ClearsNoDesignation(rows, contacts) {
      var i: nat :| i < |contacts| && contacts[i].Addressed() && contacts[i].id.value in rows && contacts[i].designation.None?
                    && rows[contacts[i].id.value].designation.Some?;
      assert FinalRows(rows, owner, contacts, newIds)[PlaceOf(contacts, newIds, i)] != Inserted(owner, contacts[i]);
    }
  }

  const NO_DETAILS := Details("", "", "", false, false, false, true)

  lemma OnePosition(c: ContactUpsert, p: ContactUpsert -> bool)
    ensures Positions([c], p) == if p(c) then [0] else []
  {
    assert [c][..0] == [];
  }

  /** The failing payload: a client's one contact, kept without its designation, keeps the stored one. */
  lemma OmittedDesignationSurvives()
    ensures var rows := map["c1" := Contact("client", NO_DETAILS, Option.Some("Director"), PRIMARY)];
      var contacts := [ContactUpsert(Option.Some("c1"), NO_DETAILS, Option.None, PRIMARY)];
      && GoesThrough(rows, "client", contacts, []) && DistinctIds(contacts) && !ClearsNoDesignation(rows, contacts)
      && "c1" in FinalRows(rows, "client", contacts, [])
      && FinalRows(rows, "client", contacts, [])["c1"] != Inserted("client", contacts[0])
  {
    var rows := map["c1" := Contact("client", NO_DETAILS, Option.Some("Director"), PRIMARY)];
    var contacts := [ContactUpsert(Option.Some("c1"), NO_DETAILS, Option.None, PRIMARY)];
    OnePosition(contacts[0], (c: ContactUpsert) => c.IsPrimary());
    OnePosition(contacts[0], (c: ContactUpsert) => !c.Addressed() && !c.IsPrimary());
    OnePosition(contacts[0], (c: ContactUpsert) => !c.Addressed() && c.IsPrimary());
    assert CreateOrder(contacts) == [];
    assert contacts[0].id == Option.Some("c1") && Owns(rows, "client", "c1");
    assert GoesThrough(rows, "client", contacts, []);
    assert contacts[0].Addressed();
    PlacedRow(rows, "client", contacts, [], 0);
  }

  lemma KeptByRemoval(rows: Rows, owner: string, contacts: seq<ContactUpsert>, removed: set<string>)
    requires forall id :: id in removed <==> Owns(rows, owner, id) && !Names(contacts, id)
    ensures rows - removed == Kept(rows, owner, contacts)
  {
    forall id
      ensures id in rows - removed <==> id in Kept(rows, owner, contacts)
    {
      assert id in removed <==> Owns(rows, owner, id) && !Names(contacts, id);
    }
  }

  lemma PassKeepsOwned(rows: Rows, owner: string, contacts: seq<ContactUpsert>, n: nat, id: string)
    requires n <= |contacts| && Owns(rows, owner, id)
    ensures Owns(AfterPass(rows, contacts, true, n), owner, id)
  {
    PassFrame(rows, contacts, true, n);
  }

  lemma NextIdIsUnused(rows: Rows, owner: string, contacts: seq<ContactUpsert>, newIds: seq<string>, n: nat)
    requires n < |CreateOrder(contacts)| <= |newIds| && Unused(rows, newIds) && "" !in rows
    ensures newIds[n] !in AfterCreates(rows, owner, contacts, newIds, n)
    ensures "" !in AfterCreates(rows, owner, contacts, newIds, n)
  {
    CreatesFrame(rows, owner, contacts, newIds, n);
  }

  lemma KeptHasTheNamed(rows: Rows, owner: string, contacts: seq<ContactUpsert>)
    requires NamesOnlyOwn(rows, owner, contacts)
    ensures forall i :: 0 <= i < |contacts| && contacts[i].id.Some? ==> Owns(Kept(rows, owner, contacts), owner, contacts[i].id.value)
  {
    forall i | 0 <= i < |contacts| && contacts[i].id.Some?
      ensures Owns(Kept(rows, owner, contacts), owner, contacts[i].id.value)
    {
      assert Owns(rows, owner, contacts[i].id.value);
      assert Names(contacts, contacts[i].id.value);
    }
  }

  /** The table. Every method is one statement; the database refuses one that breaks the index, so
      keeping it is their precondition. */
  class ContactTable {
    var rows: Rows
    /** The rows after each statement so far, from the start. */
    ghost var states: seq<Rows>

    ghost predicate Valid()
      reads this
    {
      && states != [] && states[|states| - 1] == rows && "" !in rows
      && forall k :: 0 <= k < |states| ==> OnePrimary(states[k])
    }

    method DeleteMany(ids: set<string>)
      requires Valid()
      modifies this
      ensures Valid() && rows == old(rows) - ids && states == old(states) + [rows]
    {
      rows := rows - ids;
      states := states + [rows];
    }

    method Update(id: string, c: ContactUpsert)
      requires Valid() && id in rows && OnePrimary(rows[id := Updated(rows[id], c)])
      modifies this
      ensures Valid() && rows == old(rows)[id := Updated(old(rows)[id], c)] && states == old(states) + [rows]
    {
      rows := rows[id := Updated(rows[id], c)];
      states := states + [rows];
    }

    method Create(id: string, owner: string, c: ContactUpsert)
      requires Valid() && id !in rows && id != "" && OnePrimary(rows[id := Inserted(owner, c)])
      modifies this
      ensures Valid() && rows == old(rows)[id := Inserted(owner, c)] && states == old(states) + [rows]
    {
      rows := rows[id := Inserted(owner, c)];
      states := states + [rows];
    }

    /** The demotion pass, over rows with at most one PRIMARY. */
    method Demotions(contacts: seq<ContactUpsert>)
      requires Valid() && forall i :: 0 <= i < |contacts| && InPass(contacts[i], false) ==> contacts[i].id.value in rows
      modifies this
      ensures Valid() && old(states) <= states
      ensures rows == AfterPass(old(rows), contacts, false, |contacts|)
    {
      for i := 0 to |contacts|
        invariant Valid() && old(states) <= states
        invariant rows == AfterPass(old(rows), contacts, false, i) && rows.Keys == old(rows).Keys
      {
        DemotionsKeepIndex(old(rows), contacts, i + 1);
        if InPass(contacts[i], false) {
          Update(contacts[i].id.value, contacts[i]);
        }
      }
    }

    /** The promotion pass, over rows whose only PRIMARY of the owner is the one to promote. */
    method Promotions(owner: string, contacts: seq<ContactUpsert>)
      requires Valid() && OnlyWantedPrimary(rows, owner, contacts) && |Primaries(contacts)| <= 1
      requires forall i :: 0 <= i < |contacts| && InPass(contacts[i], true) ==> Owns(rows, owner, contacts[i].id.value)
      modifies this
      ensures Valid() && old(states) <= states
      ensures rows == AfterPass(old(rows), contacts, true, |contacts|) && OnlyWantedPrimary(rows, owner, contacts)
    {
      for i := 0 to |contacts|
        invariant Valid() && old(states) <= states && OnlyWantedPrimary(rows, owner, contacts)
        invariant rows == AfterPass(old(rows), contacts, true, i)
      {
        if InPass(contacts[i], true) {
          PassKeepsOwned(old(rows), owner, contacts, i, contacts[i].id.value);
          PromotionKeepsIndex(rows, owner, contacts, i);
          Update(contacts[i].id.value, contacts[i]);
        }
      }
    }

    /** The inserts, the PRIMARY one last. */
    method Creates(owner: string, contacts: seq<ContactUpsert>, newIds: seq<string>)
      requires Valid() && OnlyWantedPrimary(rows, owner, contacts) && |Primaries(contacts)| <= 1
      requires |newIds| >= |CreateOrder(contacts)| && Unused(rows, newIds)
      modifies this
      ensures Valid() && old(states) <= states
      ensures rows == AfterCreates(old(rows), owner, contacts, newIds, |CreateOrder(contacts)|)
    {
      var order := CreateOrder(contacts);
      for n := 0 to |order|
        invariant Valid() && old(states) <= states
        invariant n < |order| ==> OnlyWantedPrimary(rows, owner, contacts)
        invariant rows == AfterCreates(old(rows), owner, contacts, newIds, n)
      {
        NextIdIsUnused(old(rows), owner, contacts, newIds, n);
        CreateKeepsIndex(rows, owner, contacts, order[n], newIds[n]);
        if contacts[order[n]].IsPrimary() {
          PrimaryComesLast(contacts, n);
        }
        Create(newIds[n], owner, contacts[order[n]]);
      }
    }

    /** The checks before the first write. */
    method Check(owner: string, contacts: seq<ContactUpsert>) returns (verdict: Outcome)
      ensures verdict == Verdict(rows, owner, contacts)
    {
      if |Primaries(contacts)| > 1 {
        return PrimaryDuplicate;
      }
      for i := 0 to |contacts|
        invariant forall j :: 0 <= j < i && contacts[j].id.Some? ==> Owns(rows, owner, contacts[j].id.value)
      {
        if contacts[i].id.Some? && !(contacts[i].id.value in rows && rows[contacts[i].id.value].owner == owner) {
          assert !Owns(rows, owner, contacts[i].id.value);
          return ContactNotFound;
        }
      }
      return Reconciled;
    }

    /** Deletes the owner's rows that the payload does not name. */
    method Deletes(owner: string, contacts: seq<ContactUpsert>)
      requires Valid()
      modifies this
      ensures Valid() && old(states) <= states && rows == Kept(old(rows), owner, contacts)
    {
      var kept := set i | 0 <= i < |contacts| && contacts[i].id.Some? :: contacts[i].id.value;
      assert forall id :: id in kept <==> Names(contacts, id) by {
        forall id | Names(contacts, id)
          ensures id in kept
        {
          var i :| 0 <= i < |contacts| && contacts[i].id == Some(id);
          assert contacts[i].id.value in kept;
        }
      }
      var removed := set id | id in rows && rows[id].owner == owner && id !in kept;
      KeptByRemoval(rows, owner, contacts, removed);
      if removed != {} {
        DeleteMany(removed);
      } else {
        assert rows - removed == rows;
      }
    }

    /** Brings the contacts of one owner to the payload. newIds are the ids the database gives out. */
    method Reconcile(owner: string, contacts: seq<ContactUpsert>, newIds: seq<string>) returns (outcome: Outcome)
      requires Valid() && |newIds| >= |CreateOrder(contacts)| && Unused(rows, newIds)
      modifies this
      ensures Valid() && old(states) <= states
      ensures outcome == Verdict(old(rows), owner, contacts)
      ensures outcome.PrimaryDuplicate? <==> TwoPrimaries(contacts)
      ensures outcome.ContactNotFound? <==> !TwoPrimaries(contacts) && NamesForeign(old(rows), owner, contacts)
      ensures !outcome.Reconciled? ==> rows == old(rows) && states == old(states)
      ensures outcome.Reconciled? ==> rows == FinalRows(old(rows), owner, contacts, newIds)
    {
      outcome := Check(owner, contacts);
      VerdictExactly(rows, owner, contacts);
      if outcome.Reconciled? {
        Deletes(owner, contacts);
        KeptHasTheNamed(old(rows), owner, contacts);
        Demotions(contacts);
        DemotionsFreeTheIndex(old(rows), owner, contacts);
        PassFrame(Kept(old(rows), owner, contacts), contacts, false, |contacts|);
        Promotions(owner, contacts);
        UpdatesFrame(old(rows), owner, contacts);
        Creates(owner, contacts, newIds);
      }
    }
  }
}
