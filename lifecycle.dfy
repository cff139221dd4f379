/** The warranty's life across the pages: a client creates it, the admin
    changes its status, anyone looks it up by number. */
module Lifecycle {
  import opened Common
  import opened Store
  import opened NewWarranty
  import opened PublicLookup

  /** A warranty created from the form starts pending; after the admin
      confirms it, looking its number up shows it confirmed, with the form's
      beneficiary, amount and dates. Assumes the new number and the new id
      are not already in the table. */
  lemma CreateConfirmLookup(rows: seq<Row>, u: User, form: Form, now: nat, x: real, id: string, stamp: string)
    requires 0.0 <= x < 1.0
    requires forall i | 0 <= i < |rows| :: rows[i].id != id
    requires forall i | 0 <= i < |rows| :: rows[i].number != GenerateWarrantyNumber(now, x)
    ensures var number := GenerateWarrantyNumber(now, x);
      var created := rows + [Stored(InsertRecord(u, form, number), id, stamp)];
      && SelectSingle(created, number).Some?
      && SelectSingle(created, number).value.status == Pending
      && SelectSingle(SetStatus(created, id, Confirmed), number) ==
         Some(WarrantyInfo(number, form.beneficiary, form.value, form.startDate, form.endDate,
                           Confirmed, form.kind, Some(form.description)))
  {
    var number := GenerateWarrantyNumber(now, x);
    var created := rows + [Stored(InsertRecord(u, form, number), id, stamp)];
    var k := |rows|;
    assert forall j | 0 <= j < |created| && j != k :: created[j].number != created[k].number;
    SelectSingleComplete(created, k);
    var updated := SetStatus(created, id, Confirmed);
    assert updated[k] == created[k].(status := Confirmed);
    assert forall j | 0 <= j < |updated| && j != k :: updated[j].number != updated[k].number;
    SelectSingleComplete(updated, k);
  }
}
