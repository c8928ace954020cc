/**
 * The payment webhook (src/app/api/webhooks/stripe/route.ts): a completed
 * checkout session becomes one pending income transaction of the
 * organisation named in the session's metadata.  The handler runs its guards
 * in order and inserts at most one row per Stripe event: it looks the event id
 * up first, and the table's unique constraint on `stripe_event_id` catches a
 * concurrent delivery that slips between the look-up and the insert.
 *
 * The signature check is a foreign cryptographic call: its outcome is an
 * input.  So are the clock, the database's transport faults and the insert of
 * a concurrent delivery.
 */
module StripeWebhook {

  import opened Wrappers

  /** The checkout session carried by the event (only the fields the handler reads). */
  datatype Session = Session(metadata: map<string, string>, amountTotal: Option<int>, email: Option<string>)

  datatype Event = Event(id: string, kind: string, session: Session)

  /** `stripe.webhooks.constructEvent`: the verified event, or the error it throws. */
  datatype SignatureCheck = Verified(event: Event) | Rejected(message: string)

  /** A row of the `transactions` table; rows entered by hand carry no Stripe event id. */
  datatype Row = Row(
    organizationId: string,
    amount: int,
    kind: string,
    description: string,
    category: string,
    date: string,
    status: string,
    classificationStatus: string,
    stripeEventId: Option<string>)

  /** The HTTP response: a status and an optional text body. */
  datatype Response = Response(status: nat, body: Option<string>)

  const CheckoutCompleted := "checkout.session.completed"
  const UniqueViolation := "23505"

  /** `metadata?.[key]` read with `||`: absent and empty both count as missing. */
  function MetaValue(metadata: map<string, string>, key: string): (r: Option<string>)
    ensures r.Some? <==> key in metadata && metadata[key] != ""
    ensures r.Some? ==> r.value == metadata[key]
  {
    if key in metadata && metadata[key] != "" then Some(metadata[key]) else None
  }

  /** The row inserted for a verified checkout event of organisation `orgId`, dated `now`. */
  function StripeRow(event: Event, orgId: string, now: string): (row: Row)
    ensures row.organizationId == orgId && row.kind == "income" && row.date == now
    ensures row.amount == (if event.session.amountTotal.Some? then event.session.amountTotal.value else 0)
    ensures row.status == "pending" && row.classificationStatus == "pending"
    ensures row.stripeEventId == Some(event.id)
    ensures row.category == MetaValue(event.session.metadata, "category").GetOr("Autre")
    ensures row.description ==
              MetaValue(event.session.metadata, "description").GetOr("Paiement Stripe")
              + " (" + event.session.email.GetOr("inconnu") + ")"
  {
    var meta := event.session.metadata;
    var category := MetaValue(meta, "category").GetOr("Autre");
    var description := MetaValue(meta, "description").GetOr("Paiement Stripe");
    // `amount_total || 0`: a missing total, or a total of 0, is 0
    var amount := match event.session.amountTotal case Some(a) => a case None => 0;
    Row(orgId, amount, "income", description + " (" + event.session.email.GetOr("inconnu") + ")",
        category, now, "pending", "pending", Some(event.id))
  }

  predicate HasEvent(rows: seq<Row>, eventId: string) {
    exists i :: 0 <= i < |rows| && rows[i].stripeEventId == Some(eventId)
  }

  /** The unique constraint on `stripe_event_id`: no two rows carry the same event id. */
  predicate UniqueEventIds(rows: seq<Row>) {
    forall i, j :: 0 <= i < j < |rows| && rows[i].stripeEventId.Some? ==>
      rows[i].stripeEventId != rows[j].stripeEventId
  }

  /** The unique constraint lets `row` in: it carries no event id, or one not yet stored. */
  predicate Admits(rows: seq<Row>, row: Row) {
    !(row.stripeEventId.Some? && HasEvent(rows, row.stripeEventId.value))
  }

  function CountEvent(rows: seq<Row>, eventId: string): nat {
    if rows == [] then 0
    else CountEvent(rows[..|rows| - 1], eventId) + (if rows[|rows| - 1].stripeEventId == Some(eventId) then 1 else 0)
  }

  /** Under the unique constraint a Stripe event is recorded at most once. */
  lemma {:induction false} AtMostOneRowPerEvent(rows: seq<Row>, eventId: string)
    requires UniqueEventIds(rows)
    ensures CountEvent(rows, eventId) <= 1
    ensures CountEvent(rows, eventId) == 1 <==> HasEvent(rows, eventId)
  {
    if rows != [] {
      var init := rows[..|rows| - 1];
      assert UniqueEventIds(init);
      AtMostOneRowPerEvent(init, eventId);
      if HasEvent(init, eventId) {
        // the earlier row holding the id keeps the last row from holding it too
        var i :| 0 <= i < |init| && init[i].stripeEventId == Some(eventId);
        assert rows[i].stripeEventId == Some(eventId);
      }
      if HasEvent(rows, eventId) && rows[|rows| - 1].stripeEventId != Some(eventId) {
        var i :| 0 <= i < |rows| && rows[i].stripeEventId == Some(eventId);
        assert init[i].stripeEventId == Some(eventId);
      }
    }
  }

  /** The `transactions` table, with the `organizations` it may point at. */
  class Transactions {
    var rows: seq<Row>
    const organizations: set<string>

    ghost predicate Valid()
      reads this
    {
      UniqueEventIds(rows)
    }

    constructor (organizations: set<string>)
      ensures Valid() && rows == [] && this.organizations == organizations
    {
      rows := [];
      this.organizations := organizations;
    }

    /**
     * The database's insert: refused with code 23505 when the row's event id
     * is already stored, refused with `fault` when the store fails otherwise,
     * and appended otherwise.
     */
    method Insert(row: Row, fault: Option<string>) returns (error: Option<string>)
      requires Valid()
      modifies this
      ensures Valid()
      ensures !Admits(old(rows), row) ==> error == Some(UniqueViolation) && rows == old(rows)
      ensures Admits(old(rows), row) ==>
                if fault.Some? then error == fault && rows == old(rows)
                else error == None && rows == old(rows) + [row]
    {
      if row.stripeEventId.Some? && HasEvent(rows, row.stripeEventId.value) {
        return Some(UniqueViolation);
      }
      if fault.Some? {
        return fault;
      }
      rows := rows + [row];
      assert UniqueEventIds(rows) by {
        forall i, j | 0 <= i < j < |rows| && rows[i].stripeEventId.Some?
          ensures rows[i].stripeEventId != rows[j].stripeEventId
        {
          if j == |rows| - 1 {
            assert rows[i] == old(rows)[i];
          }
        }
      }
      error := None;
    }

    /**
     * The `POST` handler.  `check` is the outcome of the signature check,
     * `now` the ISO date of the insert, `lookupFails` whether the
     * idempotence select errors (its `data` is then null), `concurrent` a row
     * that a concurrent delivery inserts between that select and this
     * handler's insert, and `fault` a non-constraint failure of this insert.
     */
    method Post(check: SignatureCheck, now: string, lookupFails: bool,
                concurrent: Option<Row>, fault: Option<string>)
      returns (response: Response)
      requires Valid()
      modifies this
      ensures Valid()
      ensures check.Rejected? ==>
                response == Response(400, Some("Webhook Error: " + check.message)) && rows == old(rows)
      ensures check.Verified? && check.event.kind != CheckoutCompleted ==>
                response == Response(200, None) && rows == old(rows)
      ensures check.Verified? && check.event.kind == CheckoutCompleted ==>
                var orgId := MetaValue(check.event.session.metadata, "org_id");
                orgId.None? || orgId.value !in organizations ==>
                  response == Response(200, None) && rows == old(rows)
      ensures check.Verified? && HasEvent(old(rows), check.event.id) && concurrent.None? ==>
                rows == old(rows) && response.status == 200
      ensures check.Verified? && !lookupFails && HasEvent(old(rows), check.event.id) ==>
                response == Response(200, None) && rows == old(rows)
      ensures check.Verified? && check.event.kind == CheckoutCompleted && !HasEvent(old(rows), check.event.id)
              && concurrent.None? && fault.None? ==>
                var orgId := MetaValue(check.event.session.metadata, "org_id");
                orgId.Some? && orgId.value in organizations ==>
                  response == Response(200, None)
                  && rows == old(rows) + [StripeRow(check.event, orgId.value, now)]
      ensures check.Verified? && check.event.kind == CheckoutCompleted ==>
                var orgId := MetaValue(check.event.session.metadata, "org_id");
                orgId.Some? && orgId.value in organizations && (lookupFails || !HasEvent(old(rows), check.event.id)) ==>
                  // the concurrent delivery's insert, then this handler's
                  var mid := if concurrent.Some? && Admits(old(rows), concurrent.value)
                             then old(rows) + [concurrent.value] else old(rows);
                  if HasEvent(mid, check.event.id) then
                    response == Response(200, None) && rows == mid
                  else if fault.Some? then
                    rows == mid
                    && response == (if fault.value == UniqueViolation then Response(200, None)
                                    else Response(500, Some("Database Error")))
                  else
                    response == Response(200, None) && rows == mid + [StripeRow(check.event, orgId.value, now)]
      ensures response.status == 200 || response.status == 400 || response == Response(500, Some("Database Error"))
      ensures response.status == 500 ==> fault.Some? && fault.value != UniqueViolation
      ensures forall r :: r in rows && r !in old(rows) ==>
                check.Verified? && (r == StripeRow(check.event, r.organizationId, now) || Some(r) == concurrent)
    {
      if check.Rejected? {
        return Response(400, Some("Webhook Error: " + check.message));
      }
      var event := check.event;
      if event.kind == CheckoutCompleted {
        var orgId := MetaValue(event.session.metadata, "org_id");
        if orgId.None? {
          return Response(200, None);
        }
        if orgId.value !in organizations {
          return Response(200, None);
        }
        var existing := !lookupFails && HasEvent(rows, event.id);
        if existing {
          return Response(200, None);
        }
        if concurrent.Some? {
          var _ := Insert(concurrent.value, None);
        }
        var error := Insert(StripeRow(event, orgId.value, now), fault);
        if error.Some? {
          if error.value == UniqueViolation {
            return Response(200, None);
          }
          return Response(500, Some("Database Error"));
        }
      }
      response := Response(200, None);
    }
  }

  /** Appending rows keeps every stored event. */
  lemma HasEventGrows(rows: seq<Row>, more: seq<Row>, eventId: string)
    requires HasEvent(rows, eventId)
    ensures HasEvent(rows + more, eventId)
  {
    var i :| 0 <= i < |rows| && rows[i].stripeEventId == Some(eventId);
    assert (rows + more)[i] == rows[i];
  }

  /**
   * Whatever happens around it (failed look-up, concurrent delivery), the
   * table never holds two transactions for one Stripe event.  When the first
   * delivery of a new checkout event of a known organisation is stored, the
   * second delivery answers 200 and the event ends with exactly one row.
   */
  method DeliverTwice(table: Transactions, event: Event, now1: string, now2: string,
                      lookupFails1: bool, lookupFails2: bool, concurrent: Option<Row>)
    returns (first: Response, second: Response)
    requires table.Valid()
    modifies table
    ensures CountEvent(table.rows, event.id) <= 1
    ensures event.kind == CheckoutCompleted && !HasEvent(old(table.rows), event.id)
            && MetaValue(event.session.metadata, "org_id").Some?
            && MetaValue(event.session.metadata, "org_id").value in table.organizations ==>
              && first == Response(200, None) && second == Response(200, None)
              && CountEvent(table.rows, event.id) == 1
  {
    var before := table.rows;
    first := table.Post(Verified(event), now1, lookupFails1, None, None);
    var after1 := table.rows;
    if event.kind == CheckoutCompleted && !HasEvent(before, event.id)
       && MetaValue(event.session.metadata, "org_id").Some?
       && MetaValue(event.session.metadata, "org_id").value in table.organizations
    {
      var row := StripeRow(event, MetaValue(event.session.metadata, "org_id").value, now1);
      assert after1 == before + [row];
      assert after1[|before|] == row;
      assert HasEvent(after1, event.id);
      if concurrent.Some? {
        HasEventGrows(after1, [concurrent.value], event.id);
      }
    }
    second := table.Post(Verified(event), now2, lookupFails2, concurrent, None);
    AtMostOneRowPerEvent(table.rows, event.id);
  }

  /**
   * An event the look-up finds is answered 200 before any insert, even when
   * a concurrent delivery is under way.
   */
  method FoundEventGives200(table: Transactions, event: Event, now: string, concurrent: Option<Row>)
    returns (response: Response)
    requires table.Valid() && HasEvent(table.rows, event.id)
    modifies table
    ensures response == Response(200, None) && table.rows == old(table.rows)
  {
    response := table.Post(Verified(event), now, false, concurrent, None);
  }

  /** A database fault other than the unique constraint answers 500 and stores nothing. */
  method OtherFaultGives500(table: Transactions, event: Event, now: string) returns (response: Response)
    requires table.Valid() && event.kind == CheckoutCompleted
    requires MetaValue(event.session.metadata, "org_id").Some?
    requires MetaValue(event.session.metadata, "org_id").value in table.organizations
    requires !HasEvent(table.rows, event.id)
    modifies table
    ensures response == Response(500, Some("Database Error")) && table.rows == old(table.rows)
  {
    response := table.Post(Verified(event), now, false, None, Some("XX000"));
  }

  /**
   * A concurrent delivery that stores the event first makes this handler's
   * insert fail on the unique constraint: the answer is still 200, and only
   * the concurrent row is stored.
   */
  method ConcurrentDeliveryGives200(table: Transactions, event: Event, now: string, other: string)
    returns (response: Response)
    requires table.Valid() && event.kind == CheckoutCompleted
    requires MetaValue(event.session.metadata, "org_id").Some?
    requires MetaValue(event.session.metadata, "org_id").value in table.organizations
    requires !HasEvent(table.rows, event.id)
    modifies table
    ensures response == Response(200, None)
    ensures table.rows == old(table.rows) + [StripeRow(event, other, now)]
  {
    var first := StripeRow(event, other, now);
    var mid := table.rows + [first];
    assert Admits(table.rows, first);
    assert mid[|mid| - 1].stripeEventId == Some(event.id);
    response := table.Post(Verified(event), now, false, Some(first), None);
  }
}
