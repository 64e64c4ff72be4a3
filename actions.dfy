/** The server action that deletes an invoice (app/lib/actions.ts): one
    DELETE statement on the invoices table, then an invalidation of the
    cached invoices page. */
module Actions {
  import opened Schema
  import Sql
  import Data

  /** The cached page `deleteInvoice` invalidates. */
  const INVOICES_PATH := "/dashboard/invoices"

  /** What the action does outside the table, in order: the statements the
      database carried out and the cached paths it invalidates. A statement
      that fails is not recorded. */
  datatype Event = DeleteStatement(id: Option<string>) | Revalidated(path: string)

  /** The action returns nothing, or raises the driver's error. */
  datatype Outcome = Completed | Raised

  /** `formData.get(name)`: the field's value, or None (`null`) when the form
      has no such field. */
  function FormField(formData: map<string, string>, name: string): (r: Option<string>)
    ensures r.Some? <==> name in formData
    ensures r.Some? ==> r.value == formData[name]
  {
    if name in formData then Some(formData[name]) else None
  }

  /** The rows `DELETE FROM invoices WHERE id = $id` keeps: those where the
      condition is not true. A NULL parameter makes it unknown, so nothing
      goes. */
  function Survives(id: Option<string>): Invoice -> bool {
    (inv: Invoice) => id.None? || inv.id != id.value
  }

  function DeleteWhereId(invoices: seq<Invoice>, id: Option<string>): (r: seq<Invoice>)
    ensures forall inv :: inv in r ==> inv in invoices
    ensures id.Some? ==> forall inv :: inv in r ==> inv.id != id.value
    ensures forall inv :: inv in invoices && (id.None? || inv.id != id.value) ==> inv in r
    ensures multiset(r) <= multiset(invoices)
  {
    Sql.Filter(invoices, Survives(id))
  }

  /** Deleting an id no row has, or deleting with no id, leaves the table as
      it was. */
  lemma DeleteOfAbsentIdChangesNothing(invoices: seq<Invoice>, id: Option<string>)
    requires id.Some? ==> forall inv :: inv in invoices ==> inv.id != id.value
    ensures DeleteWhereId(invoices, id) == invoices
  {
    Sql.FilterKeepingAll(invoices, Survives(id));
  }

  /** With ids unique, deleting an existing invoice removes exactly one row. */
  lemma {:induction false} DeleteRemovesOneRow(invoices: seq<Invoice>, inv: Invoice)
    requires forall i, j :: 0 <= i < j < |invoices| ==> invoices[i].id != invoices[j].id
    requires inv in invoices
    ensures |DeleteWhereId(invoices, Some(inv.id))| == |invoices| - 1
  {
    var id := Some(inv.id);
    assert invoices == [invoices[0]] + invoices[1..];
    if invoices[0] == inv {
      assert forall x :: x in invoices[1..] ==> x.id != inv.id by {
        forall x | x in invoices[1..] ensures x.id != inv.id {
          var k :| 0 <= k < |invoices[1..]| && invoices[1..][k] == x;
          assert invoices[k + 1] == x;
        }
      }
      DeleteOfAbsentIdChangesNothing(invoices[1..], id);
    } else {
      assert inv in invoices[1..];
      assert forall i, j :: 0 <= i < j < |invoices[1..]| ==> invoices[1..][i].id != invoices[1..][j].id by {
        forall i, j | 0 <= i < j < |invoices[1..]| ensures invoices[1..][i].id != invoices[1..][j].id {
          assert invoices[1..][i] == invoices[i + 1] && invoices[1..][j] == invoices[j + 1];
        }
      }
      DeleteRemovesOneRow(invoices[1..], inv);
      var k :| 0 <= k < |invoices| && invoices[k] == inv;
      assert k > 0;
      assert invoices[0].id != invoices[k].id;
    }
  }

  /** After a delete, looking the invoice up by that id finds nothing. */
  lemma DeletedInvoiceIsNotFound(db: Snapshot, id: string)
    ensures Data.FetchInvoiceById(Up(db.(invoices := DeleteWhereId(db.invoices, Some(id)))), id) == Success(None)
  {
  }

  /** The invoices table as the action sees it, with the log of what the
      action has sent and invalidated. */
  class InvoiceStore {
    var invoices: seq<Invoice>
    /** Whether the next statement reaches the database. */
    var reachable: bool
    ghost var log: seq<Event>

    constructor (invoices: seq<Invoice>, reachable: bool)
      ensures this.invoices == invoices && this.reachable == reachable && log == []
    {
      this.invoices := invoices;
      this.reachable := reachable;
      log := [];
    }

    /** `deleteInvoice(formData)`: a failing DELETE raises before anything
        is invalidated, and the log, which holds only statements carried out,
        is unchanged; otherwise the rows with the form's id are gone and the
        invoices page is invalidated after the statement. */
    method DeleteInvoice(formData: map<string, string>) returns (outcome: Outcome)
      modifies this`invoices, this`log
      ensures var id := FormField(formData, "id");
        if old(reachable) then
          && outcome == Completed
          && invoices == DeleteWhereId(old(invoices), id)
          && log == old(log) + [DeleteStatement(id), Revalidated(INVOICES_PATH)]
        else
          && outcome == Raised
          && invoices == old(invoices)
          && log == old(log)
    {
      var id := FormField(formData, "id");
      if !reachable {
        return Raised;
      }
      invoices := DeleteWhereId(invoices, id);
      log := log + [DeleteStatement(id)];
      log := log + [Revalidated(INVOICES_PATH)];
      outcome := Completed;
    }
  }
}
