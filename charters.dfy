/** The charter invoice form: from a booking (customer, location, date, start
    and end time, charge) it works out the invoice's title, note and due date,
    finds or creates the customer at the payment processor, and sends an
    order, an invoice for it and the invoice's publication. */
module Charters {
  import opened Common

  const SecondsPerDay: int := 86400

  // ---------------------------------------------------------------------------
  // Dates and times

  /** A calendar date as the form's `YYYY-MM-DD` field gives it. */
  datatype Date = Date(year: int, month: int, day: int)

  predicate Leap(year: int)
  {
    year % 4 == 0 && (year % 100 != 0 || year % 400 == 0)
  }

  function DaysInMonth(year: int, month: int): int
    requires 1 <= month <= 12
  {
    if month == 2 then (if Leap(year) then 29 else 28)
    else if month in {4, 6, 9, 11} then 30
    else 31
  }

  /** The dates the form's date field can parse to. */
  predicate ValidDate(d: Date)
  {
    1 <= d.year <= 9999 && 1 <= d.month <= 12 && 1 <= d.day <= DaysInMonth(d.year, d.month)
  }

  /** Days since 1970-01-01 of a proleptic Gregorian date (Hinnant's
      days-from-civil): years are counted from March, so that the leap day
      ends a year. */
  function DayNumber(d: Date): int
    requires ValidDate(d)
  {
    var y := if d.month <= 2 then d.year - 1 else d.year;
    var mp := if d.month > 2 then d.month - 3 else d.month + 9;
    YearStart(y) + MonthStart(mp) + d.day - 1 - 719468
  }

  /** Days from 0000-03-01 to March 1 of year `y`; the divisors are positive,
      so `/` floors. */
  function YearStart(y: int): int
  {
    var era := y / 400;
    var yoe := y - era * 400;
    era * 146097 + yoe * 365 + yoe / 4 - yoe / 100
  }

  /** Days from March 1 to the first of the `mp`-th month counted from March. */
  function MonthStart(mp: int): int
  {
    (153 * mp + 2) / 5
  }

  /** The calendar day after `d`: the next day of the month, the first of the
      next month, or New Year's Day. */
  function NextDate(d: Date): Date
    requires ValidDate(d)
  {
    if d.day < DaysInMonth(d.year, d.month) then Date(d.year, d.month, d.day + 1)
    else if d.month < 12 then Date(d.year, d.month + 1, 1)
    else Date(d.year + 1, 1, 1)
  }

  /** Day numbers count calendar days, across month and year ends alike, so
      moving a date by whole days is moving its day number. */
  lemma NextDateIsNextDay(d: Date)
    requires ValidDate(d) && d != Date(9999, 12, 31)
    ensures ValidDate(NextDate(d))
    ensures DayNumber(NextDate(d)) == DayNumber(d) + 1
  {
    if d.day < DaysInMonth(d.year, d.month) {
      NextInMonth(d);
    } else if d.month == 2 {
      NextAfterFebruary(d);
    } else if d.month < 12 {
      NextAfterMonth(d);
    } else {
      NextAfterDecember(d);
    }
  }

  lemma NextInMonth(d: Date)
    requires ValidDate(d) && d.day < DaysInMonth(d.year, d.month)
    ensures ValidDate(NextDate(d)) && DayNumber(NextDate(d)) == DayNumber(d) + 1
  {
    assert NextDate(d) == Date(d.year, d.month, d.day + 1);
  }

  lemma NextAfterFebruary(d: Date)
    requires ValidDate(d) && d.month == 2 && d.day == DaysInMonth(d.year, 2)
    ensures ValidDate(NextDate(d)) && DayNumber(NextDate(d)) == DayNumber(d) + 1
  {
    assert NextDate(d) == Date(d.year, 3, 1);
    YearStep(d.year);
    assert MonthStart(0) == 0 && MonthStart(11) == 337;
  }

  lemma NextAfterMonth(d: Date)
    requires ValidDate(d) && d.month < 12 && d.month != 2 && d.day == DaysInMonth(d.year, d.month)
    ensures ValidDate(NextDate(d)) && DayNumber(NextDate(d)) == DayNumber(d) + 1
  {
    assert NextDate(d) == Date(d.year, d.month + 1, 1);
    MonthStep(d.year, d.month);
  }

  lemma NextAfterDecember(d: Date)
    requires ValidDate(d) && d.year < 9999 && d.month == 12 && d.day == 31
    ensures ValidDate(NextDate(d)) && DayNumber(NextDate(d)) == DayNumber(d) + 1
  {
    assert NextDate(d) == Date(d.year + 1, 1, 1);
    assert MonthStart(9) == 275 && MonthStart(10) == 306;
  }

  /** Outside February, a month's length is the step between month starts. */
  lemma MonthStep(year: int, month: int)
    requires 1 <= month <= 12 && month != 2
    ensures var mp := if month > 2 then month - 3 else month + 9;
      MonthStart(mp + 1) == MonthStart(mp) + DaysInMonth(year, month)
  {
  }

  /** A year counted from March has 366 days when the February ending it has
      a leap day, otherwise 365. */
  lemma YearStep(year: int)
    requires 1 <= year <= 9999
    ensures YearStart(year) == YearStart(year - 1) + (if Leap(year) then 366 else 365)
  {
    var y := year - 1;
    var era := y / 400;
    var yoe := y - era * 400;
    assert 0 <= yoe < 400;
    assert YearStart(y) == era * 146097 + yoe * 365 + yoe / 4 - yoe / 100;
    if year % 400 == 0 {
      assert yoe == 399;
      assert year / 400 == era + 1;
      assert YearStart(year) == (era + 1) * 146097;
    } else {
      assert year / 400 == era;
      var next := yoe + 1;
      assert YearStart(year) == era * 146097 + next * 365 + next / 4 - next / 100;
      var q4, q100 := era * 100, era * 4;
      assert year == next + 4 * q4 && year == next + 100 * q100;
      ModShift(year, next, q4, 4);
      ModShift(year, next, q100, 100);
      FloorStep(yoe, 4);
      FloorStep(yoe, 100);
    }
  }

  /** Adding a multiple of 4 or of 100 keeps the remainder. */
  lemma ModShift(a: int, b: int, q: int, k: int)
    requires (k == 4 || k == 100) && a == b + k * q
    ensures a % k == b % k
  {
    if k == 4 {
      assert a == b + 4 * q;
    } else {
      assert a == b + 100 * q;
    }
  }

  /** Counting multiples of 4 or of 100: one more is reached exactly at a multiple. */
  lemma FloorStep(a: int, k: int)
    requires 0 <= a && (k == 4 || k == 100)
    ensures (a + 1) / k - a / k == if (a + 1) % k == 0 then 1 else 0
  {
    if k == 4 {
      assert (a + 1) / 4 - a / 4 == if (a + 1) % 4 == 0 then 1 else 0;
    } else {
      assert (a + 1) / 100 - a / 100 == if (a + 1) % 100 == 0 then 1 else 0;
    }
  }

  /** A time of day as the form's `HH:MM` fields give it. */
  datatype Clock = Clock(hour: int, minute: int)

  predicate ValidClock(c: Clock)
  {
    0 <= c.hour < 24 && 0 <= c.minute < 60
  }

  /** The hour on a 12-hour clock face. */
  function Hour12(hour: int): (h: int)
    requires 0 <= hour < 24
    ensures 1 <= h <= 12
  {
    if hour % 12 == 0 then 12 else hour % 12
  }

  /** `%-I:%M%p`: the 12-hour hour without padding, two-digit minutes, AM or PM. */
  function Clock12(c: Clock): string
    requires ValidClock(c)
  {
    Decimal(Hour12(c.hour)) + ":" + TwoDigits(c.minute) + (if c.hour < 12 then "AM" else "PM")
  }

  /** The 12-hour text reads back as the time it was made from. */
  lemma Clock12RoundTrip(c: Clock)
    requires ValidClock(c)
    ensures var s := Clock12(c); var n := |Decimal(Hour12(c.hour))|;
      && |s| == n + 5
      && s[n] == ':'
      && (forall i :: 0 <= i < n ==> '0' <= s[i] <= '9')
      && (forall i :: n + 1 <= i < n + 3 ==> '0' <= s[i] <= '9')
      && DecimalValue(s[..n]) % 12 + (if s[n + 3..] == "PM" then 12 else 0) == c.hour
      && DecimalValue(s[n + 1..n + 3]) == c.minute
      && (s[n + 3..] == "AM" || s[n + 3..] == "PM")
  {
    var h := Decimal(Hour12(c.hour));
    var m := TwoDigits(c.minute);
    var ampm := if c.hour < 12 then "AM" else "PM";
    var s := Clock12(c);
    assert s == h + ":" + m + ampm;
    var n := |h|;
    assert s[..n] == h;
    assert s[n + 1..n + 3] == m;
    assert s[n + 3..] == ampm;
    DecimalRoundTrip(Hour12(c.hour));
    TwoDigitsRoundTrip(c.minute);
    Hour12RoundTrip(c.hour);
  }

  /** The 12-hour hour and the half of the day give back the 24-hour hour. */
  lemma Hour12RoundTrip(hour: int)
    requires 0 <= hour < 24
    ensures Hour12(hour) % 12 + (if hour < 12 then 0 else 12) == hour
  {
  }

  /** `%m/%d/%y`: two-digit month, day and year of the century. */
  function UsDate(d: Date): (s: string)
    requires ValidDate(d)
    ensures |s| == 8
  {
    TwoDigits(d.month) + "/" + TwoDigits(d.day) + "/" + TwoDigits(d.year % 100)
  }

  /** The US-style date reads back as the month, day and year of the century. */
  lemma UsDateRoundTrip(d: Date)
    requires ValidDate(d)
    ensures var s := UsDate(d);
      && |s| == 8 && s[2] == '/' && s[5] == '/'
      && (forall i :: 0 <= i < 8 && i != 2 && i != 5 ==> '0' <= s[i] <= '9')
      && DecimalValue(s[0..2]) == d.month
      && DecimalValue(s[3..5]) == d.day
      && DecimalValue(s[6..8]) == d.year % 100
  {
    var s := UsDate(d);
    assert s[0..2] == TwoDigits(d.month);
    assert s[3..5] == TwoDigits(d.day);
    assert s[6..8] == TwoDigits(d.year % 100);
    TwoDigitsRoundTrip(d.month);
    TwoDigitsRoundTrip(d.day);
    TwoDigitsRoundTrip(d.year % 100);
  }

  // ---------------------------------------------------------------------------
  // The due date

  /** The due instant, in local seconds since the epoch: midnight of the
      charter date less seven days, unless that is earlier than a day from
      `now`, in which case a day from `now`. */
  function DueInstant(charterDay: int, now: int): (due: int)
    ensures due >= now + SecondsPerDay && due >= (charterDay - 7) * SecondsPerDay
    ensures due == now + SecondsPerDay || due == (charterDay - 7) * SecondsPerDay
  {
    var weekBefore := (charterDay - 7) * SecondsPerDay;
    if weekBefore < now + SecondsPerDay then now + SecondsPerDay else weekBefore
  }

  /** The calendar day the invoice is due on. */
  function DueDay(charterDay: int, now: int): (day: int)
    ensures day * SecondsPerDay <= DueInstant(charterDay, now) < (day + 1) * SecondsPerDay
  {
    DueInstant(charterDay, now) / SecondsPerDay
  }

  function Max(a: int, b: int): int
  {
    if a < b then b else a
  }

  /** The due day is a week before the charter or tomorrow, whichever is later. */
  lemma DueDayRule(charterDay: int, now: int)
    ensures DueDay(charterDay, now) == Max(charterDay - 7, now / SecondsPerDay + 1)
  {
    var weekBefore := (charterDay - 7) * SecondsPerDay;
    var today := now / SecondsPerDay;
    assert now == today * SecondsPerDay + now % SecondsPerDay;
    assert (now + SecondsPerDay) / SecondsPerDay == today + 1;
    assert weekBefore / SecondsPerDay == charterDay - 7;
    if weekBefore < now + SecondsPerDay {
      assert charterDay - 7 <= today + 1;
    } else {
      assert charterDay - 7 >= today + 1;
    }
  }

  /** The invoice is never due before a day from now, so never before tomorrow. */
  lemma DueNotBeforeTomorrow(charterDay: int, now: int)
    ensures DueInstant(charterDay, now) >= now + SecondsPerDay
    ensures DueDay(charterDay, now) >= now / SecondsPerDay + 1
  {
    DueDayRule(charterDay, now);
  }

  /** A charter booked eight or more days ahead is due exactly a week before. */
  lemma DueWeekBeforeWhenBookedAhead(charterDay: int, now: int)
    requires now <= (charterDay - 8) * SecondsPerDay
    ensures DueDay(charterDay, now) == charterDay - 7
  {
    DueDayRule(charterDay, now);
    assert now / SecondsPerDay <= charterDay - 8;
  }

  // ---------------------------------------------------------------------------
  // Title and note

  function Title(date: Date, location: string): (t: string)
    requires ValidDate(date)
    ensures |t| == 20 + |location| && t[2] == '/' && t[5] == '/'
  {
    UsDate(date) + " Charter at " + location
  }

  function Note(date: Date, location: string, start: Clock, end: Clock): (n: string)
    requires ValidDate(date) && ValidClock(start) && ValidClock(end)
    ensures |n| > 20 + |location| && n[..8] == UsDate(date)
  {
    UsDate(date) + " Charter at " + location + ", " + Clock12(start) + "-" + Clock12(end)
  }

  /** The note is the title followed by the time span. */
  lemma NoteExtendsTitle(date: Date, location: string, start: Clock, end: Clock)
    requires ValidDate(date) && ValidClock(start) && ValidClock(end)
    ensures Note(date, location, start, end) == Title(date, location) + ", " + Clock12(start) + "-" + Clock12(end)
    ensures Title(date, location)[..8] == UsDate(date)
    ensures Title(date, location)[8..] == " Charter at " + location
  {
    var t := Title(date, location);
    assert t == UsDate(date) + (" Charter at " + location);
  }

  // ---------------------------------------------------------------------------
  // The charge as echoed back

  /** `"{:.2f}".format(cents / 100)`, for the whole-cent amounts the form yields. */
  function FormatCharge(cents: int): (s: string)
    ensures |s| >= 4
  {
    if cents < 0 then "-" + Unsigned(-cents) else Unsigned(cents)
  }

  function Unsigned(cents: nat): (u: string)
    ensures |u| >= 4
  {
    Decimal(cents / 100) + "." + TwoDigits(cents % 100)
  }

  /** An unsigned amount is whole units in decimal, a point and two digits of
      cents, and reads back as the amount. */
  lemma UnsignedRoundTrip(cents: nat)
    ensures var u := Unsigned(cents);
      && u[|u| - 3] == '.'
      && (forall i :: 0 <= i < |u| - 3 ==> '0' <= u[i] <= '9')
      && (forall i :: |u| - 2 <= i < |u| ==> '0' <= u[i] <= '9')
      && DecimalValue(u[..|u| - 3]) * 100 + DecimalValue(u[|u| - 2..]) == cents
  {
    var whole := Decimal(cents / 100);
    var frac := TwoDigits(cents % 100);
    var u := Unsigned(cents);
    assert u == whole + "." + frac;
    assert u[..|u| - 3] == whole;
    assert u[|u| - 2..] == frac;
    DecimalRoundTrip(cents / 100);
    TwoDigitsRoundTrip(cents % 100);
  }

  /** The echoed charge reads back as the amount charged, in cents. */
  lemma FormatChargeRoundTrip(cents: int)
    ensures var s := FormatCharge(cents); var u := if cents < 0 then s[1..] else s;
      && u[|u| - 3] == '.'
      && (forall i :: 0 <= i < |u| - 3 ==> '0' <= u[i] <= '9')
      && (forall i :: |u| - 2 <= i < |u| ==> '0' <= u[i] <= '9')
      && (s[0] == '-' <==> cents < 0)
      && (if cents < 0 then -1 else 1) * (DecimalValue(u[..|u| - 3]) * 100 + DecimalValue(u[|u| - 2..])) == cents
  {
    var a: nat := if cents < 0 then -cents else cents;
    UnsignedRoundTrip(a);
    var s := FormatCharge(cents);
    var u := Unsigned(a);
    if cents < 0 {
      assert s == "-" + u;
      assert s[1..] == u;
    } else {
      assert s == u;
      assert '0' <= u[0] <= '9';
    }
  }

  // ---------------------------------------------------------------------------
  // What is sent to the payment processor

  datatype Money = Money(amount: int, currency: string)

  datatype OrderLine = OrderLine(quantity: string, catalogObjectId: string, note: string, basePriceMoney: Money)

  datatype OrderRequest = OrderRequest(idempotencyKey: string, locationId: string, lineItems: seq<OrderLine>)

  datatype PaymentRequest = PaymentRequest(requestType: string, dueDay: int, reminderDays: seq<int>)

  datatype AcceptedPaymentMethods = AcceptedPaymentMethods(card: bool, squareGiftCard: bool, bankAccount: bool)

  datatype InvoiceRequest = InvoiceRequest(
    idempotencyKey: string, orderId: string, title: string, description: string,
    saleOrServiceDate: Date, customerId: string, deliveryMethod: string,
    paymentRequests: seq<PaymentRequest>, acceptedPaymentMethods: AcceptedPaymentMethods)

  datatype CustomerRequest = CustomerRequest(idempotencyKey: string, givenName: string, familyName: string,
                                             companyName: string, emailAddress: string)

  datatype Request =
    | SearchCustomers(emailExact: string)
    | CreateCustomer(customer: CustomerRequest)
    | CreateOrder(order: OrderRequest)
    | CreateInvoice(invoice: InvoiceRequest)
    | PublishInvoice(invoiceId: string, idempotencyKey: string, version: int)

  /** `createCharterOrder`: one line for the charter catalog item, priced at the charge. */
  function CharterOrder(key: string, locationId: string, catalogObjectId: string, note: string, amount: int): (o: OrderRequest)
    ensures |o.lineItems| == 1 && o.lineItems[0].quantity == "1"
    ensures o.lineItems[0].basePriceMoney == Money(amount, "USD") && o.lineItems[0].note == note
    ensures o.locationId == locationId && o.idempotencyKey == key
  {
    OrderRequest(key, locationId, [OrderLine("1", catalogObjectId, note, Money(amount, "USD"))])
  }

  /** `createCharterInvoice`: the whole balance due on the due day, emailed,
      with reminders a week before, on, and one and three days after the due
      day; card and bank account accepted, gift card not. */
  function CharterInvoice(key: string, orderId: string, title: string, description: string,
                          saleDate: Date, customerId: string, dueDay: int): (i: InvoiceRequest)
    ensures |i.paymentRequests| == 1 && i.paymentRequests[0].requestType == "BALANCE"
    ensures i.paymentRequests[0].dueDay == dueDay
    ensures forall r :: r in i.paymentRequests[0].reminderDays ==> -7 <= r <= 3
    ensures i.acceptedPaymentMethods.card && i.acceptedPaymentMethods.bankAccount && !i.acceptedPaymentMethods.squareGiftCard
    ensures i.orderId == orderId && i.customerId == customerId && i.deliveryMethod == "EMAIL"
  {
    InvoiceRequest(key, orderId, title, description, saleDate, customerId, "EMAIL",
      [PaymentRequest("BALANCE", dueDay, [-7, 0, 1, 3])],
      AcceptedPaymentMethods(true, false, true))
  }

  datatype CharterError = UnknownLocation(name: string) | EmptyCustomerList

  /** The customer the invoice goes to and what it took to get one. */
  datatype CustomerChoice = CustomerChoice(requests: seq<Request>, customerId: string)

  /** `createCustomerRecord`: the first customer the email search returns, or
      a new one when the response has no `customers` at all. */
  function FindOrCreate(found: Option<seq<string>>, created: string, request: CustomerRequest): (r: Result<CustomerChoice, CharterError>)
    ensures r.Failure? <==> found == Some([])
    ensures r.Success? ==> |r.value.requests| <= 1
    ensures r.Success? && found.Some? ==> r.value.customerId in found.value
  {
    match found
    case Some(ids) => if |ids| == 0 then Failure(EmptyCustomerList) else Success(CustomerChoice([], ids[0]))
    case None => Success(CustomerChoice([CreateCustomer(request)], created))
  }

  // ---------------------------------------------------------------------------
  // The form

  datatype Form = Form(firstName: string, lastName: string, companyName: string, email: string,
                       location: string, charterDate: Date, start: Clock, end: Clock, chargeCents: int)

  /** The fixed settings: location names to location ids, the charter catalog
      item and the invoice description. */
  datatype Config = Config(locations: map<string, string>, charterObjectId: string, invoiceNote: string)

  /** What the processor answers: the customer search (absent when it found no
      `customers`), the new customer's id, the order's id, the invoice's id
      and version, and the published invoice's id and number. */
  datatype Responses = Responses(found: Option<seq<string>>, createdCustomerId: string, orderId: string,
                                 invoiceId: string, invoiceVersion: int,
                                 publishedId: string, publishedNumber: string)

  /** The fresh idempotency keys of the four writes. */
  datatype Keys = Keys(customer: string, order: string, invoice: string, publish: string)

  /** The page's summary of what was invoiced. */
  datatype Summary = Summary(firstName: string, lastName: string, companyName: string, email: string,
                             location: string, charterDate: Date, start: Clock, end: Clock,
                             charge: string, invoiceId: string, invoiceNumber: string)

  datatype Sent = Sent(requests: seq<Request>, summary: Summary)

  /** `processCharterInvoiceForm` and `sendInvoice`: the requests sent, in order, and the summary.
      The source reads the clock twice, once for the comparison and once for
      the replacement due date; one `now` stands for both. A failure result
      does not list the customer search, although the search has already been
      sent when the search result turns out to be empty. */
  function ProcessCharterInvoiceForm(form: Form, config: Config, now: int, responses: Responses, keys: Keys)
    : (r: Result<Sent, CharterError>)
    requires ValidDate(form.charterDate) && ValidClock(form.start) && ValidClock(form.end)
    ensures r.Failure? <==> form.location !in config.locations || responses.found == Some([])
    ensures r.Success? ==> |r.value.requests| >= 4 && r.value.requests[0] == SearchCustomers(form.email)
    ensures r.Success? ==>
      && r.value.summary.charge == FormatCharge(form.chargeCents)
      && r.value.summary.invoiceId == responses.publishedId && r.value.summary.invoiceNumber == responses.publishedNumber
  {
    if form.location !in config.locations then Failure(UnknownLocation(form.location))
    else
      var locationId := config.locations[form.location];
      var dueDay := DueDay(DayNumber(form.charterDate), now);
      var note := Note(form.charterDate, form.location, form.start, form.end);
      var title := Title(form.charterDate, form.location);
      var customer := CustomerRequest(keys.customer, form.firstName, form.lastName, form.companyName, form.email);
      match FindOrCreate(responses.found, responses.createdCustomerId, customer)
      case Failure(e) => Failure(e)
      case Success(choice) =>
        var order := CharterOrder(keys.order, locationId, config.charterObjectId, note, form.chargeCents);
        var invoice := CharterInvoice(keys.invoice, responses.orderId, title, config.invoiceNote,
                                      form.charterDate, choice.customerId, dueDay);
        var requests := [SearchCustomers(form.email)] + choice.requests
          + [CreateOrder(order), CreateInvoice(invoice), PublishInvoice(responses.invoiceId, keys.publish, responses.invoiceVersion)];
        Success(Sent(requests, Summary(form.firstName, form.lastName, form.companyName, form.email,
                                       form.location, form.charterDate, form.start, form.end,
                                       FormatCharge(form.chargeCents), responses.publishedId, responses.publishedNumber)))
  }

  // ---------------------------------------------------------------------------
  // Properties

  /** The first search hit is reused and nothing is created. */
  lemma ExistingCustomerReused(found: seq<string>, created: string, request: CustomerRequest)
    requires |found| > 0
    ensures var r := FindOrCreate(Some(found), created, request);
      r.Success? && r.value.customerId == found[0] && forall q :: q in r.value.requests ==> !q.CreateCustomer?
  {
  }

  /** Without a hit, exactly one customer is created, with the form's details,
      and the invoice goes to it. */
  lemma MissingCustomerCreatedOnce(created: string, request: CustomerRequest)
    ensures var r := FindOrCreate(None, created, request);
      r.Success? && r.value.requests == [CreateCustomer(request)] && r.value.customerId == created
  {
  }

  /** An unknown location fails before anything is sent. */
  lemma UnknownLocationSendsNothing(form: Form, config: Config, now: int, responses: Responses, keys: Keys)
    requires ValidDate(form.charterDate) && ValidClock(form.start) && ValidClock(form.end)
    ensures ProcessCharterInvoiceForm(form, config, now, responses, keys).Failure?
      <==> form.location !in config.locations || responses.found == Some([])
    ensures form.location !in config.locations ==>
      ProcessCharterInvoiceForm(form, config, now, responses, keys) == Failure(UnknownLocation(form.location))
  {
  }

  /** A successful form sends one customer search, at most one customer
      creation, then one order with a single line for the charter priced at the
      charge, one invoice for that order (titled, due and addressed as the
      booking says) and the invoice's publication, in that order. */
  lemma CharterRequestsShape(form: Form, config: Config, now: int, responses: Responses, keys: Keys)
    requires ValidDate(form.charterDate) && ValidClock(form.start) && ValidClock(form.end)
    requires ProcessCharterInvoiceForm(form, config, now, responses, keys).Success?
    ensures form.location in config.locations
    ensures var rs := ProcessCharterInvoiceForm(form, config, now, responses, keys).value.requests;
      var n := |rs|;
      && (n == 4 || n == 5)
      && rs[0] == SearchCustomers(form.email)
      && (n == 5 <==> responses.found.None?)
      && (n == 5 ==> rs[1].CreateCustomer? && rs[1].customer.emailAddress == form.email
                      && rs[1].customer.givenName == form.firstName && rs[1].customer.familyName == form.lastName)
      && rs[n - 3].CreateOrder? && rs[n - 2].CreateInvoice? && rs[n - 1].PublishInvoice?
      && var order := rs[n - 3].order; var invoice := rs[n - 2].invoice;
      && order.locationId == config.locations[form.location]
      && |order.lineItems| == 1
      && order.lineItems[0].quantity == "1"
      && order.lineItems[0].catalogObjectId == config.charterObjectId
      && order.lineItems[0].note == Title(form.charterDate, form.location) + ", " + Clock12(form.start) + "-" + Clock12(form.end)
      && order.lineItems[0].basePriceMoney == Money(form.chargeCents, "USD")
      && invoice.orderId == responses.orderId
      && invoice.title == Title(form.charterDate, form.location)
      && invoice.customerId == (if responses.found.None? then responses.createdCustomerId else responses.found.value[0])
      && |invoice.paymentRequests| == 1
      && invoice.paymentRequests[0].requestType == "BALANCE"
      && invoice.paymentRequests[0].dueDay == Max(DayNumber(form.charterDate) - 7, now / SecondsPerDay + 1)
      && invoice.paymentRequests[0].reminderDays == [-7, 0, 1, 3]
      && invoice.deliveryMethod == "EMAIL"
      && invoice.acceptedPaymentMethods == AcceptedPaymentMethods(true, false, true)
      && rs[n - 1] == PublishInvoice(responses.invoiceId, keys.publish, responses.invoiceVersion)
  {
    DueDayRule(DayNumber(form.charterDate), now);
    NoteExtendsTitle(form.charterDate, form.location, form.start, form.end);
  }
}
