/** Cursor-paginated pulls from the payment processor into the local mirror,
    the location and catalog refreshes, and the read-through payment lookup. */
module MirrorSync {
  import opened Common
  import opened MirrorStore

  // ---------------------------------------------------------------------------
  // The remote listing

  /** One list response: the array under the listing's key (absent when the
      response has no such key) and the cursor for the next page (absent on
      the last page). */
  datatype Page = Page(items: Option<seq<Payload>>, cursor: Option<string>)

  /** The responses the remote gives to successive requests of one listing;
      the remote always ends a listing with a page that has no cursor. */
  predicate Ends(pages: seq<Page>)
  {
    |pages| > 0 && pages[|pages| - 1].cursor.None?
  }

  /** Items of page `i` followed by the items of every page the loop goes on to read. */
  function Fetched(pages: seq<Page>, i: nat): seq<Payload>
    requires Ends(pages) && i < |pages| && pages[i].items.Some?
    decreases |pages| - i, 1
  {
    pages[i].items.value + After(pages, i)
  }

  /** Items read after page `i`: none when page `i` has no cursor or the next
      response has no array under the key; both end the loop. */
  function After(pages: seq<Page>, i: nat): seq<Payload>
    requires Ends(pages) && i < |pages|
    decreases |pages| - i, 0
  {
    if pages[i].cursor.None? || pages[i + 1].items.None? then [] else Fetched(pages, i + 1)
  }

  /** Every item the listing loop visits, in order; none when the first
      response already lacks the key. */
  function PageItems(pages: seq<Page>): seq<Payload>
    requires Ends(pages)
  {
    if pages[0].items.None? then [] else Fetched(pages, 0)
  }

  /** The pages the loop reads, concatenated (all of them must carry items). */
  function Concat(pages: seq<Page>): seq<Payload>
    requires forall i :: 0 <= i < |pages| ==> pages[i].items.Some?
  {
    if pages == [] then [] else pages[0].items.value + Concat(pages[1..])
  }

  /** The loop reads exactly the first `n` pages: each of them has items,
      each before the last of them has a cursor, and the last of them has no
      cursor or is followed by a response without items. */
  predicate ReadsFirst(pages: seq<Page>, n: nat)
    requires Ends(pages)
  {
    if n == 0 then pages[0].items.None?
    else
      && n <= |pages|
      && (forall i :: 0 <= i < n ==> pages[i].items.Some?)
      && (forall i :: 0 <= i < n - 1 ==> pages[i].cursor.Some?)
      && (pages[n - 1].cursor.None? || (n < |pages| && pages[n].items.None?))
  }

  /** The stop rule: the items visited are those of the pages read, in order. */
  lemma {:induction false} PageItemsAreReadPages(pages: seq<Page>, n: nat)
    requires Ends(pages) && ReadsFirst(pages, n)
    ensures forall i :: 0 <= i < n ==> pages[i].items.Some?
    ensures PageItems(pages) == Concat(pages[..n])
  {
    if n > 0 {
      FetchedFrom(pages, 0, n);
      assert pages[..n][0..] == pages[..n];
    }
  }

  lemma {:induction false} FetchedFrom(pages: seq<Page>, i: nat, n: nat)
    requires Ends(pages) && 0 < n && ReadsFirst(pages, n) && i < n
    ensures Fetched(pages, i) == Concat(pages[..n][i..])
    decreases n - i
  {
    var rest := pages[..n][i..];
    assert rest[0] == pages[i];
    assert rest[1..] == pages[..n][i + 1..];
    if i + 1 == n {
      assert rest[1..] == [];
      assert After(pages, i) == [];
    } else {
      assert pages[i].cursor.Some?;
      FetchedFrom(pages, i + 1, n);
    }
  }

  /** A listing whose first response lacks the key visits nothing. */
  lemma NoItemsOnFirstPage(pages: seq<Page>)
    requires Ends(pages) && pages[0].items.None?
    ensures PageItems(pages) == []
  {
  }

  /** Every page the remote returns is read when each carries its items. */
  lemma {:induction false} AllPagesRead(pages: seq<Page>)
    requires Ends(pages)
    requires forall i :: 0 <= i < |pages| ==> pages[i].items.Some?
    requires forall i :: 0 <= i < |pages| - 1 ==> pages[i].cursor.Some?
    ensures PageItems(pages) == Concat(pages)
  {
    assert ReadsFirst(pages, |pages|);
    PageItemsAreReadPages(pages, |pages|);
    assert pages[..|pages|] == pages;
  }

  // ---------------------------------------------------------------------------
  // Saving what a listing returns

  /** The key a listing logs after the item's id and before it saves the item:
      the payment, refund and payout listings log `created_at`, the entries
      listing `effective_at`; the order listing logs the id only, and the
      location and catalog refreshes log nothing. */
  function LoggedKey(kind: Kind): Option<string>
  {
    match kind
    case Payments => Some("created_at")
    case Refunds => Some("created_at")
    case Payouts => Some("created_at")
    case PayoutEntries => Some("effective_at")
    case Orders => None
    case Locations => None
    case CatalogObjects => None
  }

  /** The item carries the key its listing logs. (The id, which is logged
      first, is read by the save itself before anything changes.) */
  predicate Logs(kind: Kind, p: Payload)
  {
    LoggedKey(kind).None? || LoggedKey(kind).value in p
  }

  /** One item of a listing of the given kind: logging it raises KeyError when
      the logged key is missing, before the save is reached; otherwise it is
      saved. */
  function Step(kind: Kind, now: Instant): (seq<Row>, Payload) -> Outcome
  {
    (rows, p) => if Logs(kind, p) then Upsert(SchemaOf(kind), rows, p, now) else Outcome(Some(MissingKey), rows)
  }

  /** A logged item is saved as the save function does; an item without the
      logged key fails with the key missing and touches no row. */
  lemma StepCases(kind: Kind, now: Instant, rows: seq<Row>, p: Payload)
    ensures Logs(kind, p) ==> Step(kind, now)(rows, p) == Upsert(SchemaOf(kind), rows, p, now)
    ensures !Logs(kind, p) ==> Step(kind, now)(rows, p) == Outcome(Some(MissingKey), rows)
  {
  }

  /** A payload with every key its save reads also carries the logged key. */
  lemma CompleteIsLogged(kind: Kind, p: Payload)
    requires Complete(kind, p)
    ensures Logs(kind, p)
  {
    match kind
    case Payments => assert Assign("created_at", "created_at") in InsertAssigns(kind);
    case Refunds => assert Assign("created_at", "created_at") in InsertAssigns(kind);
    case Payouts => assert Assign("created_at", "created_at") in InsertAssigns(kind);
    case PayoutEntries => assert Assign("effective_at", "effective_at") in InsertAssigns(kind);
    case Orders =>
    case Locations =>
    case CatalogObjects =>
  }

  /** The end of a run of saves: the rows, the payloads saved (in order) and
      the id of a multiple-match error, which the listing raises. */
  datatype Run = Run(rows: seq<Row>, saved: seq<Payload>, raised: Option<Value>)

  function Prefixed(saved: seq<Payload>, run: Run): Run
  {
    Run(run.rows, saved + run.saved, run.raised)
  }

  /** Saved payloads accumulate in order. */
  lemma PrefixedTwice(a: seq<Payload>, b: seq<Payload>, run: Run)
    ensures Prefixed(a, Prefixed(b, run)) == Prefixed(a + b, run)
  {
    assert a + (b + run.saved) == (a + b) + run.saved;
  }

  /** Saves the items in order. A missing key ends the run quietly (the
      listing's outer handler swallows the KeyError and returns what it has);
      a multiple match ends it with an error that propagates. */
  function SaveAll(step: (seq<Row>, Payload) -> Outcome, rows: seq<Row>, items: seq<Payload>): (run: Run)
    ensures |run.saved| <= |items|
    decreases |items|
  {
    if items == [] then Run(rows, [], None)
    else
      var o := step(rows, items[0]);
      match o.error
      case None => Prefixed([items[0]], SaveAll(step, o.rows, items[1..]))
      case Some(MissingKey) => Run(o.rows, [], None)
      case Some(MultipleFound(id)) => Run(o.rows, [], Some(id))
  }

  /** The ids of the saved payloads, as the listing collects them. */
  function Ids(saved: seq<Payload>): (ids: seq<Value>)
    requires forall p :: p in saved ==> "id" in p
    ensures |ids| == |saved|
    ensures forall k :: 0 <= k < |saved| ==> ids[k] == saved[k]["id"]
  {
    if saved == [] then [] else [saved[0]["id"]] + Ids(saved[1..])
  }

  /** Items are saved in page order, none skipped: the saved payloads are a
      prefix of the items. */
  lemma {:induction false} SavedIsPrefix(step: (seq<Row>, Payload) -> Outcome, rows: seq<Row>, items: seq<Payload>)
    ensures var run := SaveAll(step, rows, items); run.saved == items[..|run.saved|]
    decreases |items|
  {
    if items != [] {
      var o := step(rows, items[0]);
      if o.error == None {
        SavedIsPrefix(step, o.rows, items[1..]);
      }
    }
  }

  /** A run that raises has stopped short of the end of its items. */
  lemma {:induction false} RaisedOnlyWhenShort(step: (seq<Row>, Payload) -> Outcome, rows: seq<Row>, items: seq<Payload>)
    ensures var run := SaveAll(step, rows, items); run.raised.Some? ==> |run.saved| < |items|
    decreases |items|
  {
    if items != [] {
      var o := step(rows, items[0]);
      if o.error == None {
        RaisedOnlyWhenShort(step, o.rows, items[1..]);
      }
    }
  }

  /** A run over two lists of items: the second list is saved only when the
      first was saved completely and raised nothing. */
  lemma {:induction false} SaveAllAppend(step: (seq<Row>, Payload) -> Outcome, rows: seq<Row>, a: seq<Payload>, b: seq<Payload>)
    ensures var ra := SaveAll(step, rows, a);
      SaveAll(step, rows, a + b)
        == if ra.raised.Some? || |ra.saved| < |a| then ra else Prefixed(ra.saved, SaveAll(step, ra.rows, b))
    decreases |a|
  {
    if a == [] {
      assert a + b == b;
    } else {
      assert (a + b)[0] == a[0];
      assert (a + b)[1..] == a[1..] + b;
      var o := step(rows, a[0]);
      if o.error == None {
        SaveAllAppend(step, o.rows, a[1..], b);
      }
    }
  }

  /** An item without the key its listing logs ends the run where it stands:
      the rows and the saved payloads are those of the items before it, and
      nothing is raised for it. */
  lemma UnloggedItemEndsRun(kind: Kind, now: Instant, rows: seq<Row>, items: seq<Payload>, j: nat)
    requires j < |items| && !Logs(kind, items[j])
    ensures var before := SaveAll(Step(kind, now), rows, items[..j]);
      SaveAll(Step(kind, now), rows, items)
        == if before.raised.Some? || |before.saved| < j then before else Run(before.rows, before.saved, None)
  {
    var step := Step(kind, now);
    assert items == items[..j] + items[j..];
    SaveAllAppend(step, rows, items[..j], items[j..]);
    var before := SaveAll(step, rows, items[..j]);
    StepCases(kind, now, before.rows, items[j]);
    assert items[j..][0] == items[j];
    assert before.saved + [] == before.saved;
  }

  /** Every payload a mirror save accepted carries an id. */
  lemma {:induction false} SavedHaveIds(kind: Kind, now: Instant, rows: seq<Row>, items: seq<Payload>)
    ensures forall p :: p in SaveAll(Step(kind, now), rows, items).saved ==> "id" in p
    decreases |items|
  {
    if items != [] && Logs(kind, items[0]) {
      var o := Upsert(SchemaOf(kind), rows, items[0], now);
      StepCases(kind, now, rows, items[0]);
      if o.error == None {
        UpsertStoresRecord(kind, rows, items[0], now);
        SavedHaveIds(kind, now, o.rows, items[1..]);
      }
    }
  }

  /** Every saved payload is in the mirror afterwards, under its own id. */
  lemma {:induction false} SavedAreStored(kind: Kind, now: Instant, rows: seq<Row>, items: seq<Payload>)
    ensures var run := SaveAll(Step(kind, now), rows, items);
      forall p :: p in run.saved ==> "id" in p && exists k :: 0 <= k < |run.rows| && Holds(run.rows[k], p["id"])
    decreases |items|
  {
    if items != [] && Logs(kind, items[0]) {
      var o := Upsert(SchemaOf(kind), rows, items[0], now);
      StepCases(kind, now, rows, items[0]);
      if o.error == None {
        SavedAreStored(kind, now, o.rows, items[1..]);
        UpsertStoresRecord(kind, rows, items[0], now);
        var k :| 0 <= k < |o.rows| && o.rows[k].data == items[0] && Holds(o.rows[k], items[0]["id"]);
        RunKeepsHolders(kind, now, o.rows, items[1..], k, items[0]["id"]);
      }
    }
  }

  /** A row holding an id still holds it at the end of a run. */
  lemma {:induction false} RunKeepsHolders(kind: Kind, now: Instant, rows: seq<Row>, items: seq<Payload>, k: nat, id: Value)
    requires k < |rows| && Holds(rows[k], id)
    ensures var run := SaveAll(Step(kind, now), rows, items); k < |run.rows| && Holds(run.rows[k], id)
    decreases |items|
  {
    if items != [] && Logs(kind, items[0]) {
      var o := Upsert(SchemaOf(kind), rows, items[0], now);
      StepCases(kind, now, rows, items[0]);
      UpsertKeepsHolders(kind, rows, items[0], now, k, id);
      if o.error == None {
        RunKeepsHolders(kind, now, o.rows, items[1..], k, id);
      }
    }
  }

  /** On a consistent mirror, a listing whose items all carry the keys their
      save reads is saved completely, raises nothing and keeps the mirror
      consistent. */
  lemma {:induction false} CompleteItemsAllSaved(kind: Kind, now: Instant, rows: seq<Row>, items: seq<Payload>)
    requires Consistent(kind, rows)
    requires forall k :: 0 <= k < |items| ==> Complete(kind, items[k])
    ensures var run := SaveAll(Step(kind, now), rows, items);
      run.saved == items && run.raised == None && Consistent(kind, run.rows)
    decreases |items|
  {
    if items != [] {
      var o := Upsert(SchemaOf(kind), rows, items[0], now);
      CompleteIsLogged(kind, items[0]);
      StepCases(kind, now, rows, items[0]);
      UpsertSucceeds(kind, rows, items[0], now);
      UpsertPreservesConsistent(kind, rows, items[0], now);
      CompleteItemsAllSaved(kind, now, o.rows, items[1..]);
    }
  }

  /** A run keeps the mirror consistent. */
  lemma {:induction false} RunPreservesConsistent(kind: Kind, now: Instant, rows: seq<Row>, items: seq<Payload>)
    requires Consistent(kind, rows)
    ensures Consistent(kind, SaveAll(Step(kind, now), rows, items).rows)
    decreases |items|
  {
    if items != [] && Logs(kind, items[0]) {
      var o := Upsert(SchemaOf(kind), rows, items[0], now);
      StepCases(kind, now, rows, items[0]);
      UpsertPreservesConsistent(kind, rows, items[0], now);
      if o.error == None {
        RunPreservesConsistent(kind, now, o.rows, items[1..]);
      }
    }
  }

  /** A consistent mirror never raises a multiple-match error, whatever the items. */
  lemma {:induction false} ConsistentRunNeverRaises(kind: Kind, now: Instant, rows: seq<Row>, items: seq<Payload>)
    requires Consistent(kind, rows)
    ensures SaveAll(Step(kind, now), rows, items).raised == None
    decreases |items|
  {
    if items != [] && Logs(kind, items[0]) {
      var o := Upsert(SchemaOf(kind), rows, items[0], now);
      StepCases(kind, now, rows, items[0]);
      ConsistentNeverDuplicates(kind, rows, items[0], now);
      UpsertPreservesConsistent(kind, rows, items[0], now);
      if o.error == None {
        ConsistentRunNeverRaises(kind, now, o.rows, items[1..]);
      }
    }
  }

  // ---------------------------------------------------------------------------
  // The listing loops

  /** The first save of a run decides how it goes on. */
  lemma SaveAllFirst(step: (seq<Row>, Payload) -> Outcome, rows: seq<Row>, items: seq<Payload>, o: Outcome)
    requires items != [] && step(rows, items[0]) == o
    ensures SaveAll(step, rows, items) == match o.error
      case None => Prefixed([items[0]], SaveAll(step, o.rows, items[1..]))
      case Some(MissingKey) => Run(o.rows, [], None)
      case Some(MultipleFound(id)) => Run(o.rows, [], Some(id))
  {
  }

  /** The inner loop of a listing: saves one page's items in order and says
      which error, if any, ended the page early. */
  method SavePage(t: Table, items: seq<Payload>, now: Instant) returns (saved: seq<Payload>, stopped: Option<Error>)
    modifies t
    ensures var run := SaveAll(Step(t.kind, now), old(t.rows), items);
      && t.rows == run.rows
      && saved == run.saved
      && stopped == (if run.raised.Some? then Some(MultipleFound(run.raised.value))
                     else if |run.saved| < |items| then Some(MissingKey)
                     else None)
  {
    saved := [];
    ghost var step := Step(t.kind, now);
    ghost var target := SaveAll(step, t.rows, items);
    assert items[0..] == items;
    assert [] + target.saved == target.saved;
    for j := 0 to |items|
      invariant saved == items[..j]
      invariant target == Prefixed(saved, SaveAll(step, t.rows, items[j..]))
    {
      ghost var before := t.rows;
      var error := SaveStep(t, items[j], now);
      SaveAdvances(step, before, items, j, Outcome(error, t.rows), target);
      if error.Some? {
        return saved, error;
      }
      saved := saved + [items[j]];
    }
    assert items[..|items|] == items;
    stopped := None;
  }

  /** One pass of the inner loop: logs the item, which reads its logged key,
      then saves it. */
  method SaveStep(t: Table, p: Payload, now: Instant) returns (error: Option<Error>)
    modifies t
    ensures Step(t.kind, now)(old(t.rows), p) == Outcome(error, t.rows)
  {
    ghost var before := t.rows;
    var logged := LoggedKey(t.kind);
    if logged.Some? && logged.value !in p {
      StepCases(t.kind, now, before, p);
      return Some(MissingKey);
    }
    error := t.Save(p, now);
    StepCases(t.kind, now, before, p);
  }

  /** One save inside a page: what the run still has to do after it. */
  lemma SaveAdvances(step: (seq<Row>, Payload) -> Outcome, rows: seq<Row>, items: seq<Payload>, j: nat, o: Outcome, target: Run)
    requires j < |items| && step(rows, items[j]) == o
    requires target == Prefixed(items[..j], SaveAll(step, rows, items[j..]))
    ensures o.error == None ==> target == Prefixed(items[..j + 1], SaveAll(step, o.rows, items[j + 1..]))
    ensures o.error.Some? ==>
      && target.rows == o.rows && target.saved == items[..j]
      && o.error == (if target.raised.Some? then Some(MultipleFound(target.raised.value)) else Some(MissingKey))
  {
    assert items[j..][0] == items[j];
    assert items[j..][1..] == items[j + 1..];
    SaveAllFirst(step, rows, items[j..], o);
    assert items[..j] + [] == items[..j];
    if o.error == None {
      var rest := SaveAll(step, o.rows, items[j + 1..]);
      assert items[..j] + ([items[j]] + rest.saved) == items[..j + 1] + rest.saved;
    }
  }

  /** The loop shared by the payment, order, refund, payout and catalog
      listings: it saves each item of each page read and returns the saved
      payloads, or the id of a multiple-match error. */
  method Pull(t: Table, pages: seq<Page>, now: Instant) returns (r: Result<seq<Payload>, Value>)
    requires Ends(pages)
    modifies t
    ensures var run := SaveAll(Step(t.kind, now), old(t.rows), PageItems(pages));
      t.rows == run.rows && r == (if run.raised.Some? then Failure(run.raised.value) else Success(run.saved))
  {
    ghost var step := Step(t.kind, now);
    ghost var target := SaveAll(step, t.rows, PageItems(pages));
    if pages[0].items.None? {
      return Success([]);
    }
    var saved: seq<Payload> := [];
    var i := 0;
    var items := pages[0].items.value;
    while true
      invariant 0 <= i < |pages| && pages[i].items == Some(items)
      invariant target == Prefixed(saved, SaveAll(step, t.rows, Fetched(pages, i)))
      decreases |pages| - i
    {
      ghost var after := After(pages, i);
      assert Fetched(pages, i) == items + after;
      SaveAllAppend(step, t.rows, items, after);
      var more, stopped := SavePage(t, items, now);
      match stopped {
        case Some(MissingKey) =>
          return Success(saved + more);
        case Some(MultipleFound(id)) =>
          return Failure(id);
        case None =>
      }
      ghost var rest := SaveAll(step, t.rows, after);
      assert target == Prefixed(saved, Prefixed(more, rest));
      PrefixedTwice(saved, more, rest);
      saved := saved + more;
      assert target == Prefixed(saved, rest);
      if pages[i].cursor.None? {
        assert after == [];
        assert saved + [] == saved;
        break;
      }
      if pages[i + 1].items.None? {
        assert after == [];
        assert saved + [] == saved;
        break;
      }
      assert after == Fetched(pages, i + 1);
      i := i + 1;
      items := pages[i].items.value;
    }
    return Success(saved);
  }

  /** The date-range listings of payments, orders, refunds and payouts: the ids
      of the items saved, in page order. */
  method PullIds(t: Table, pages: seq<Page>, now: Instant) returns (r: Result<seq<Value>, Value>)
    requires Ends(pages)
    modifies t
    ensures var run := SaveAll(Step(t.kind, now), old(t.rows), PageItems(pages));
      && (forall p :: p in run.saved ==> "id" in p)
      && t.rows == run.rows
      && r == (if run.raised.Some? then Failure(run.raised.value) else Success(Ids(run.saved)))
  {
    SavedHaveIds(t.kind, now, t.rows, PageItems(pages));
    var pulled := Pull(t, pages, now);
    match pulled {
      case Success(saved) => r := Success(Ids(saved));
      case Failure(id) => r := Failure(id);
    }
  }

  /** The location refresh: a single page whose array is required; any missing
      key propagates, so the result is the whole array or an error. */
  method PullLocations(t: Table, locations: Option<seq<Payload>>, now: Instant) returns (r: Result<seq<Payload>, Error>)
    requires t.kind == Locations
    modifies t
    ensures locations.None? ==> r == Failure(MissingKey) && t.rows == old(t.rows)
    ensures locations.Some? ==>
      var run := SaveAll(Step(Locations, now), old(t.rows), locations.value);
      && t.rows == run.rows
      && r == (if run.raised.Some? then Failure(MultipleFound(run.raised.value))
               else if |run.saved| < |locations.value| then Failure(MissingKey)
               else Success(locations.value))
  {
    if locations.None? {
      return Failure(MissingKey);
    }
    var saved, stopped := SavePage(t, locations.value, now);
    match stopped {
      case None => r := Success(locations.value);
      case Some(error) => r := Failure(error);
    }
  }

  /** A location refresh on a consistent mirror with complete locations
      returns every location and leaves each one stored. */
  lemma LocationRefreshStoresAll(rows: seq<Row>, locations: seq<Payload>, now: Instant)
    requires Consistent(Locations, rows)
    requires forall k :: 0 <= k < |locations| ==> Complete(Locations, locations[k])
    ensures var run := SaveAll(Step(Locations, now), rows, locations);
      && run.raised == None && run.saved == locations
      && forall k :: 0 <= k < |locations| ==> "id" in locations[k] && exists i :: 0 <= i < |run.rows| && Holds(run.rows[i], locations[k]["id"])
  {
    CompleteItemsAllSaved(Locations, now, rows, locations);
    SavedAreStored(Locations, now, rows, locations);
    var run := SaveAll(Step(Locations, now), rows, locations);
    forall k | 0 <= k < |locations|
      ensures "id" in locations[k] && exists i :: 0 <= i < |run.rows| && Holds(run.rows[i], locations[k]["id"])
    {
      assert locations[k] in run.saved;
    }
  }

  // ---------------------------------------------------------------------------
  // The read-through payment lookup

  /** `getPayment`: a single stored match is returned without asking the
      remote; with none, the remote's `payment` is saved and returned; several
      matches are an error. `fetched` says whether the remote was asked. */
  method GetPayment(t: Table, paymentId: Value, remote: Option<Payload>, now: Instant)
    returns (r: Result<Payload, Error>, fetched: bool)
    requires t.kind == Payments
    modifies t
    ensures fetched <==> forall k :: 0 <= k < |old(t.rows)| ==> !Holds(old(t.rows)[k], paymentId)
    ensures !fetched ==> t.rows == old(t.rows)
    ensures r.Success? && !fetched ==>
      exists k :: 0 <= k < |t.rows| && Holds(t.rows[k], paymentId) && r.value == t.rows[k].data
    ensures r.Failure? && !fetched ==>
      && r.error == MultipleFound(paymentId)
      && exists i, j :: 0 <= i < j < |t.rows| && Holds(t.rows[i], paymentId) && Holds(t.rows[j], paymentId)
    ensures (exists i, j :: 0 <= i < j < |old(t.rows)| && Holds(old(t.rows)[i], paymentId) && Holds(old(t.rows)[j], paymentId))
      ==> !fetched && r == Failure(MultipleFound(paymentId)) && t.rows == old(t.rows)
    ensures fetched && remote.None? ==> r == Failure(MissingKey) && t.rows == old(t.rows)
    ensures fetched && remote.Some? ==>
      var o := Upsert(SchemaOf(Payments), old(t.rows), remote.value, now);
      t.rows == o.rows && r == (if o.error.None? then Success(remote.value) else Failure(o.error.value))
  {
    var found := t.Find(paymentId);
    match found {
      case Found(data) =>
        return Success(data), false;
      case Ambiguous =>
        return Failure(MultipleFound(paymentId)), false;
      case NotFound =>
        fetched := true;
        if remote.None? {
          return Failure(MissingKey), fetched;
        }
        var error := t.Save(remote.value, now);
        if error.None? {
          r := Success(remote.value);
        } else {
          r := Failure(error.value);
        }
    }
  }

  /** After a miss fills the cache, the next lookup of the same id is a single
      hit that returns the fetched payload. */
  lemma MissThenHit(rows: seq<Row>, payment: Payload, now: Instant)
    requires Consistent(Payments, rows) && Complete(Payments, payment)
    requires forall k :: 0 <= k < |rows| ==> !Holds(rows[k], payment["id"])
    ensures var o := Upsert(SchemaOf(Payments), rows, payment, now);
      && o.error == None
      && |o.rows| == |rows| + 1
      && o.rows[|rows|].data == payment
      && forall k :: 0 <= k < |o.rows| && Holds(o.rows[k], payment["id"]) ==> k == |rows|
  {
    UpsertAppendsWhenAbsent(Payments, rows, payment, now);
    var o := Upsert(SchemaOf(Payments), rows, payment, now);
    assert forall k :: 0 <= k < |rows| ==> o.rows[k] == o.rows[..|rows|][k];
  }

  // ---------------------------------------------------------------------------
  // Payout entries

  /** The entries listing runs once per payout id, each with its own handler:
      a missing key ends that payout's entries only, a multiple match raises. */
  function SaveEntries(rows: seq<Row>, payoutIds: seq<Value>, entryPages: Value -> seq<Page>, now: Instant): Run
    requires forall v :: Ends(entryPages(v))
    decreases |payoutIds|
  {
    if payoutIds == [] then Run(rows, [], None)
    else
      var first := SaveAll(Step(PayoutEntries, now), rows, PageItems(entryPages(payoutIds[0])));
      if first.raised.Some? then first
      else Prefixed(first.saved, SaveEntries(first.rows, payoutIds[1..], entryPages, now))
  }

  /** Every entry the entries run saved carries an id. */
  lemma {:induction false} EntriesHaveIds(rows: seq<Row>, payoutIds: seq<Value>, entryPages: Value -> seq<Page>, now: Instant)
    requires forall v :: Ends(entryPages(v))
    ensures forall p :: p in SaveEntries(rows, payoutIds, entryPages, now).saved ==> "id" in p
    decreases |payoutIds|
  {
    if payoutIds != [] {
      var first := SaveAll(Step(PayoutEntries, now), rows, PageItems(entryPages(payoutIds[0])));
      SavedHaveIds(PayoutEntries, now, rows, PageItems(entryPages(payoutIds[0])));
      EntriesHaveIds(first.rows, payoutIds[1..], entryPages, now);
    }
  }

  /** `getPayoutEntriesByDateRangeFromSquare`: pulls the payouts, then the
      entries of each payout saved, and returns the entry ids. */
  method PullPayoutEntries(payouts: Table, entries: Table, payoutPages: seq<Page>,
                           entryPages: Value -> seq<Page>, now: Instant)
    returns (r: Result<seq<Value>, Value>)
    requires payouts != entries
    requires payouts.kind == Payouts && entries.kind == PayoutEntries
    requires Ends(payoutPages) && forall v :: Ends(entryPages(v))
    modifies payouts, entries
    ensures var run := SaveAll(Step(Payouts, now), old(payouts.rows), PageItems(payoutPages));
      && (forall p :: p in run.saved ==> "id" in p)
      && payouts.rows == run.rows
      && (run.raised.Some? ==> r == Failure(run.raised.value) && entries.rows == old(entries.rows))
      && (run.raised.None? ==>
            var entryRun := SaveEntries(old(entries.rows), Ids(run.saved), entryPages, now);
            && (forall p :: p in entryRun.saved ==> "id" in p)
            && entries.rows == entryRun.rows
            && r == (if entryRun.raised.Some? then Failure(entryRun.raised.value) else Success(Ids(entryRun.saved))))
  {
    var payoutIds := PullIds(payouts, payoutPages, now);
    if payoutIds.Failure? {
      return Failure(payoutIds.error);
    }
    r := PullEntries(entries, payoutIds.value, entryPages, now);
  }

  /** The loop over the payout ids: each payout's entries listing, one after
      another, collecting the entry ids. */
  method PullEntries(entries: Table, ids: seq<Value>, entryPages: Value -> seq<Page>, now: Instant)
    returns (r: Result<seq<Value>, Value>)
    requires entries.kind == PayoutEntries
    requires forall v :: Ends(entryPages(v))
    modifies entries
    ensures var entryRun := SaveEntries(old(entries.rows), ids, entryPages, now);
      && (forall p :: p in entryRun.saved ==> "id" in p)
      && entries.rows == entryRun.rows
      && r == (if entryRun.raised.Some? then Failure(entryRun.raised.value) else Success(Ids(entryRun.saved)))
  {
    EntriesHaveIds(entries.rows, ids, entryPages, now);
    ghost var target := SaveEntries(entries.rows, ids, entryPages, now);
    var collected: seq<Value> := [];
    ghost var saved: seq<Payload> := [];
    assert ids[0..] == ids;
    assert [] + target.saved == target.saved;
    for n := 0 to |ids|
      invariant forall p :: p in saved ==> "id" in p
      invariant collected == Ids(saved)
      invariant target == Prefixed(saved, SaveEntries(entries.rows, ids[n..], entryPages, now))
    {
      assert ids[n..][0] == ids[n];
      assert ids[n..][1..] == ids[n + 1..];
      SavedHaveIds(PayoutEntries, now, entries.rows, PageItems(entryPages(ids[n])));
      ghost var first := SaveAll(Step(PayoutEntries, now), entries.rows, PageItems(entryPages(ids[n])));
      ghost var later := SaveEntries(first.rows, ids[n + 1..], entryPages, now);
      assert SaveEntries(entries.rows, ids[n..], entryPages, now)
        == if first.raised.Some? then first else Prefixed(first.saved, later);
      var pulled := Pull(entries, entryPages(ids[n]), now);
      match pulled {
        case Failure(id) =>
          return Failure(id);
        case Success(more) =>
          PrefixedTwice(saved, more, later);
          IdsAppend(saved, more);
          saved := saved + more;
          collected := collected + Ids(more);
      }
    }
    assert saved + [] == saved;
    return Success(collected);
  }

  lemma {:induction false} IdsAppend(a: seq<Payload>, b: seq<Payload>)
    requires forall p :: p in a ==> "id" in p
    requires forall p :: p in b ==> "id" in p
    ensures forall p :: p in a + b ==> "id" in p
    ensures Ids(a + b) == Ids(a) + Ids(b)
  {
    var l := Ids(a + b);
    var r := Ids(a) + Ids(b);
    assert |l| == |r|;
    forall k | 0 <= k < |l| ensures l[k] == r[k] {
      if k < |a| {
        assert (a + b)[k] == a[k];
      } else {
        assert (a + b)[k] == b[k - |a|];
      }
    }
  }

  /** With a consistent entries mirror, the entries run raises nothing. */
  lemma {:induction false} EntriesNeverRaiseWhenConsistent(rows: seq<Row>, payoutIds: seq<Value>, entryPages: Value -> seq<Page>, now: Instant)
    requires Consistent(PayoutEntries, rows)
    requires forall v :: Ends(entryPages(v))
    ensures SaveEntries(rows, payoutIds, entryPages, now).raised == None
    decreases |payoutIds|
  {
    if payoutIds != [] {
      var items := PageItems(entryPages(payoutIds[0]));
      ConsistentRunNeverRaises(PayoutEntries, now, rows, items);
      RunPreservesConsistent(PayoutEntries, now, rows, items);
      var first := SaveAll(Step(PayoutEntries, now), rows, items);
      EntriesNeverRaiseWhenConsistent(first.rows, payoutIds[1..], entryPages, now);
    }
  }
}
