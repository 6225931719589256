/** The event attendee report: the shop's orders for an event product are
    scanned and every line item for the event (and, when one is chosen, for
    the ticket variation) becomes one customer entry. */
module EventCustomers {
  import opened Common

  datatype LineItem = LineItem(id: int, variationId: int, quantity: int)

  /** An order with the fields the report reads: the shipping name, the
      billing email and the line items. */
  datatype Order = Order(shippingFirstName: string, shippingLastName: string, billingEmail: string,
                         lineItems: seq<LineItem>)

  datatype Customer = Customer(firstName: string, lastName: string, email: string, qty: int)

  /** The submitted form, with the event and variation ids already read as integers. */
  datatype Form = Form(eventId: int, eventName: string, variationId: int, variationName: string)

  datatype EventDetails = EventDetails(eventId: int, eventName: string, variationId: int,
                                       variationName: string, totalTicketsSold: int)

  datatype Report = Report(details: EventDetails, customers: seq<Customer>)

  /** The first response of the orders listing (up to 100 orders) and, when
      it carries a `next` link, the orders that link leads to. */
  datatype Listing = Listing(orders: seq<Order>, next: Option<seq<Order>>)

  /** The error the second-page branch raises as written. */
  datatype ReportError = UndefinedName(name: string)

  // ---------------------------------------------------------------------------
  // The filter

  /** A line item belongs to the report when its id is the event id and, when a
      variation is chosen (non-zero), its variation id is that variation. */
  predicate Selected(item: LineItem, eventId: int, variationId: int)
  {
    item.id == eventId && (variationId != 0 ==> item.variationId == variationId)
  }

  /** Names from shipping, email from billing, quantity from the line item. */
  function CustomerOf(order: Order, item: LineItem): Customer
  {
    Customer(order.shippingFirstName, order.shippingLastName, order.billingEmail, item.quantity)
  }

  /** One entry per selected line item of the order, in line-item order. */
  function OrderCustomers(order: Order, items: seq<LineItem>, eventId: int, variationId: int): seq<Customer>
    decreases |items|
  {
    if items == [] then []
    else
      var item := items[|items| - 1];
      OrderCustomers(order, items[..|items| - 1], eventId, variationId)
        + (if Selected(item, eventId, variationId) then [CustomerOf(order, item)] else [])
  }

  /** The customer entries of the orders, in order, never merged. */
  function Customers(orders: seq<Order>, eventId: int, variationId: int): seq<Customer>
    decreases |orders|
  {
    if orders == [] then []
    else
      var order := orders[|orders| - 1];
      Customers(orders[..|orders| - 1], eventId, variationId)
        + OrderCustomers(order, order.lineItems, eventId, variationId)
  }

  /** The customer entries of one page of orders, in order. */
  method CollectCustomers(orders: seq<Order>, eventId: int, variationId: int) returns (customers: seq<Customer>)
    ensures customers == Customers(orders, eventId, variationId)
  {
    customers := [];
    for o := 0 to |orders|
      invariant customers == Customers(orders[..o], eventId, variationId)
    {
      var order := orders[o];
      assert orders[..o + 1][..o] == orders[..o];
      var entries := OrderEntries(order, eventId, variationId);
      customers := customers + entries;
    }
    assert orders[..|orders|] == orders;
  }

  /** One order's entries, with the source's two loops: one testing the
      variation too, one for when no variation is chosen. */
  method OrderEntries(order: Order, eventId: int, variationId: int) returns (entries: seq<Customer>)
    ensures entries == OrderCustomers(order, order.lineItems, eventId, variationId)
  {
    entries := [];
    if variationId != 0 {
      for i := 0 to |order.lineItems|
        invariant entries == OrderCustomers(order, order.lineItems[..i], eventId, variationId)
      {
        var item := order.lineItems[i];
        assert order.lineItems[..i + 1][..i] == order.lineItems[..i];
        if item.id == eventId && item.variationId == variationId {
          entries := entries + [CustomerOf(order, item)];
        }
      }
    } else {
      for i := 0 to |order.lineItems|
        invariant entries == OrderCustomers(order, order.lineItems[..i], eventId, variationId)
      {
        var item := order.lineItems[i];
        assert order.lineItems[..i + 1][..i] == order.lineItems[..i];
        if item.id == eventId {
          entries := entries + [CustomerOf(order, item)];
        }
      }
    }
    assert order.lineItems[..|order.lineItems|] == order.lineItems;
  }

  // ---------------------------------------------------------------------------
  // The report

  function Details(form: Form): EventDetails
  {
    EventDetails(form.eventId, form.eventName, form.variationId, form.variationName, 0)
  }

  /** The report as the code is written: a `next` link sends it into a branch
      that reads an undefined name. */
  function ReportAsWritten(form: Form, listing: Listing): (r: Result<Report, ReportError>)
    ensures r.Failure? <==> listing.next.Some?
    ensures r.Failure? ==> r.error == UndefinedName("response")
    ensures r.Success? ==> r.value.details == Details(form)
    ensures r.Success? ==> forall c :: c in r.value.customers <==>
      exists o, i :: 0 <= o < |listing.orders| && 0 <= i < |listing.orders[o].lineItems|
        && Selected(listing.orders[o].lineItems[i], form.eventId, form.variationId)
        && c == CustomerOf(listing.orders[o], listing.orders[o].lineItems[i])
  {
    if listing.next.None? then
      var customers := Customers(listing.orders, form.eventId, form.variationId);
      assert forall c :: c in customers <==>
        exists o, i :: 0 <= o < |listing.orders| && 0 <= i < |listing.orders[o].lineItems|
          && Selected(listing.orders[o].lineItems[i], form.eventId, form.variationId)
          && c == CustomerOf(listing.orders[o], listing.orders[o].lineItems[i])
      by {
        forall c {
          CustomersExact(listing.orders, form.eventId, form.variationId, c);
        }
      }
      Success(Report(Details(form), customers))
    else Failure(UndefinedName("response"))
  }

  /** The report as intended: the orders behind the `next` link are filtered
      the same way and their entries follow the first page's. */
  method ProcessEventCustomersForm(form: Form, listing: Listing) returns (report: Report)
    ensures report.details == Details(form)
    ensures listing.next.None? ==> report.customers == Customers(listing.orders, form.eventId, form.variationId)
    ensures listing.next.Some? ==>
      report.customers == Customers(listing.orders + listing.next.value, form.eventId, form.variationId)
  {
    var customers := CollectCustomers(listing.orders, form.eventId, form.variationId);
    if listing.next.Some? {
      var more := CollectCustomers(listing.next.value, form.eventId, form.variationId);
      CustomersAppend(listing.orders, listing.next.value, form.eventId, form.variationId);
      customers := customers + more;
    }
    var totalTicketsSold := 0;
    report := Report(EventDetails(form.eventId, form.eventName, form.variationId, form.variationName, totalTicketsSold), customers);
  }

  // ---------------------------------------------------------------------------
  // Properties

  /** An entry is emitted exactly for a selected line item of some order, and
      it is that order's and item's entry. */
  lemma {:induction false} OrderCustomersExact(order: Order, items: seq<LineItem>, eventId: int, variationId: int, c: Customer)
    ensures c in OrderCustomers(order, items, eventId, variationId)
      <==> exists i :: 0 <= i < |items| && Selected(items[i], eventId, variationId) && c == CustomerOf(order, items[i])
    decreases |items|
  {
    if items != [] {
      var init := items[..|items| - 1];
      OrderCustomersExact(order, init, eventId, variationId, c);
      if exists i :: 0 <= i < |init| && Selected(init[i], eventId, variationId) && c == CustomerOf(order, init[i]) {
        var i :| 0 <= i < |init| && Selected(init[i], eventId, variationId) && c == CustomerOf(order, init[i]);
        assert items[i] == init[i];
      }
      if exists i :: 0 <= i < |items| && Selected(items[i], eventId, variationId) && c == CustomerOf(order, items[i]) {
        var i :| 0 <= i < |items| && Selected(items[i], eventId, variationId) && c == CustomerOf(order, items[i]);
        if i < |init| {
          assert init[i] == items[i];
        }
      }
    }
  }

  lemma {:induction false} CustomersExact(orders: seq<Order>, eventId: int, variationId: int, c: Customer)
    ensures c in Customers(orders, eventId, variationId)
      <==> exists o, i :: 0 <= o < |orders| && 0 <= i < |orders[o].lineItems|
             && Selected(orders[o].lineItems[i], eventId, variationId)
             && c == CustomerOf(orders[o], orders[o].lineItems[i])
    decreases |orders|
  {
    if orders != [] {
      var init := orders[..|orders| - 1];
      var last := orders[|orders| - 1];
      CustomersExact(init, eventId, variationId, c);
      OrderCustomersExact(last, last.lineItems, eventId, variationId, c);
      if exists o, i :: 0 <= o < |init| && 0 <= i < |init[o].lineItems|
           && Selected(init[o].lineItems[i], eventId, variationId) && c == CustomerOf(init[o], init[o].lineItems[i]) {
        var o, i :| 0 <= o < |init| && 0 <= i < |init[o].lineItems|
           && Selected(init[o].lineItems[i], eventId, variationId) && c == CustomerOf(init[o], init[o].lineItems[i]);
        assert orders[o] == init[o];
      }
      if exists o, i :: 0 <= o < |orders| && 0 <= i < |orders[o].lineItems|
           && Selected(orders[o].lineItems[i], eventId, variationId) && c == CustomerOf(orders[o], orders[o].lineItems[i]) {
        var o, i :| 0 <= o < |orders| && 0 <= i < |orders[o].lineItems|
           && Selected(orders[o].lineItems[i], eventId, variationId) && c == CustomerOf(orders[o], orders[o].lineItems[i]);
        if o < |init| {
          assert init[o] == orders[o];
        }
      }
    }
  }

  /** Entries follow the orders: those of earlier orders come first. */
  lemma {:induction false} CustomersAppend(a: seq<Order>, b: seq<Order>, eventId: int, variationId: int)
    ensures Customers(a + b, eventId, variationId) == Customers(a, eventId, variationId) + Customers(b, eventId, variationId)
    decreases |b|
  {
    if b == [] {
      assert a + b == a;
    } else {
      assert (a + b)[..|a + b| - 1] == a + b[..|b| - 1];
      assert (a + b)[|a + b| - 1] == b[|b| - 1];
      CustomersAppend(a, b[..|b| - 1], eventId, variationId);
    }
  }

  /** With no variation chosen the variation id plays no part: every line item
      with the event's id yields an entry. */
  lemma NoVariationKeepsEveryVariation(item: LineItem, eventId: int)
    ensures Selected(item, eventId, 0) <==> item.id == eventId
  {
  }

  /** Choosing a variation keeps only entries the unfiltered report has too. */
  lemma VariationNarrows(orders: seq<Order>, eventId: int, variationId: int)
    ensures forall c :: c in Customers(orders, eventId, variationId) ==> c in Customers(orders, eventId, 0)
  {
    forall c | c in Customers(orders, eventId, variationId)
      ensures c in Customers(orders, eventId, 0)
    {
      CustomersExact(orders, eventId, variationId, c);
      CustomersExact(orders, eventId, 0, c);
    }
  }

  /** Every matching line item gets its own entry, however many share an order or a buyer. */
  lemma {:induction false} OneEntryPerItem(order: Order, items: seq<LineItem>, eventId: int, variationId: int)
    requires forall i :: 0 <= i < |items| ==> Selected(items[i], eventId, variationId)
    ensures |OrderCustomers(order, items, eventId, variationId)| == |items|
    ensures forall i :: 0 <= i < |items| ==> OrderCustomers(order, items, eventId, variationId)[i] == CustomerOf(order, items[i])
    decreases |items|
  {
    if items != [] {
      OneEntryPerItem(order, items[..|items| - 1], eventId, variationId);
    }
  }

  /** Whatever the mix of line items, an order yields exactly as many entries
      as it has selected line items: none is dropped and none is merged. */
  lemma {:induction false} EntryPerSelectedItem(order: Order, items: seq<LineItem>, eventId: int, variationId: int)
    ensures |OrderCustomers(order, items, eventId, variationId)|
      == |set i | 0 <= i < |items| && Selected(items[i], eventId, variationId)|
    decreases |items|
  {
    if items != [] {
      var init := items[..|items| - 1];
      var n := |items| - 1;
      EntryPerSelectedItem(order, init, eventId, variationId);
      var before := set i | 0 <= i < |init| && Selected(init[i], eventId, variationId);
      var all := set i | 0 <= i < |items| && Selected(items[i], eventId, variationId);
      assert n !in before;
      if Selected(items[n], eventId, variationId) {
        assert all == before + {n};
      } else {
        assert all == before;
      }
    }
  }

  /** The report echoes the form and always reports zero tickets sold. */
  lemma DetailsEchoForm(form: Form)
    ensures Details(form).eventId == form.eventId && Details(form).variationId == form.variationId
    ensures Details(form).eventName == form.eventName && Details(form).variationName == form.variationName
    ensures Details(form).totalTicketsSold == 0
  {
  }

  /** As written, any listing with a second page fails instead of reporting. */
  lemma SecondPageFailsAsWritten()
    ensures var form := Form(42, "Gala", 0, "");
      var order := Order("Ada", "Byron", "ada@example.org", [LineItem(42, 0, 2)]);
      ReportAsWritten(form, Listing([order], Some([order]))) == Failure(UndefinedName("response"))
  {
  }
}
