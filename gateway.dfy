/**
 * The API gateway of the rental shop (desafio5/gateway): the two sagas that
 * coordinate the records service and the rentals service (rent, return) and
 * three read-side joins over both (availability, profile, recommendations).
 *
 * The backing services are their models, `RecordsService.Catalog` and
 * `RentalsService.Ledger`. A remote call that raises a transport error
 * (`requests.exceptions.RequestException`: connection refused, timeout) is
 * decided by an oracle, the set `down` of calls that fail this time; such a
 * request is taken never to reach the service, so it changes nothing there.
 * Each saga also returns the calls it issued, in order: the `→ GET ...`,
 * `→ POST ...` and `→ PUT ...` lines the gateway logs before each request.
 */
module Gateway {
  import opened Common
  import Records = RecordsService
  import Rentals = RentalsService

  /** The outbound requests the gateway can make. */
  datatype Call =
    | GetRecord           // GET records-service /records/<id>
    | GetCustomer         // GET rentals-service /customers/<id>
    | PostRental          // POST rentals-service /rentals
    | DecreaseCopies      // PUT records-service /records/<id>/decrease
    | GetRental           // GET rentals-service /rentals/<id>
    | PutReturn           // PUT rentals-service /rentals/<id>/return
    | IncreaseCopies      // PUT records-service /records/<id>/increase
    | GetActiveRentals    // GET rentals-service /rentals/active
    | GetCustomerRentals  // GET rentals-service /rentals/customer/<id>
    | GetGenreRecords     // GET records-service /records/genre/<genre>

  /** Every call the rent saga can make, in the order it makes them. */
  const RentPlan: seq<Call> := [GetRecord, GetCustomer, PostRental, DecreaseCopies]

  /** Every call the return saga can make, in the order it makes them. */
  const ReturnPlan: seq<Call> := [GetRental, PutReturn, IncreaseCopies]

  /** The prefixes of the rent plan, written out. */
  lemma RentPlanPrefixes()
    ensures RentPlan[..1] == [GetRecord] && RentPlan[..2] == [GetRecord, GetCustomer]
    ensures RentPlan[..3] == [GetRecord, GetCustomer, PostRental]
    ensures DecreaseCopies !in RentPlan[..1] && DecreaseCopies !in RentPlan[..2] && DecreaseCopies !in RentPlan[..3]
  {
  }

  /** Why the gateway answered with an error. */
  datatype Failure =
    | MissingField(field: string)        // 400
    | RecordNotFound                     // 404
    | NoCopies                           // 400, "Disco indisponível"
    | CustomerNotFound                   // 404
    | RentalNotFound                     // 404
    | AlreadyReturned                    // 400
    | Rejected(error: Rentals.LedgerError) // the ledger's non-201 answer, passed through
    | Unavailable                        // 503: a RequestException, or raise_for_status on an error answer

  function StatusCode(f: Failure): int
  {
    match f
    case MissingField(_) => 400
    case RecordNotFound => 404
    case NoCopies => 400
    case CustomerNotFound => 404
    case RentalNotFound => 404
    case AlreadyReturned => 400
    case Rejected(e) => Rentals.StatusCode(e)
    case Unavailable => 503
  }

  // ------------------------------------------------- cross-service invariant

  /** A rental that holds a copy of the record. */
  predicate OnLoanOf(x: Rentals.Rental, recordId: int) { x.recordId == recordId && x.status == Rentals.Active }

  /** The active rentals of one record, in ledger order. */
  function OnLoanList(rentals: seq<Rentals.Rental>, recordId: int): seq<Rentals.Rental>
  {
    Filter(rentals, (x: Rentals.Rental) => OnLoanOf(x, recordId))
  }

  function OnLoan(rentals: seq<Rentals.Rental>, recordId: int): nat { |OnLoanList(rentals, recordId)| }

  /**
   * The state the sagas are meant to keep across both services: ids are
   * unique, counters are within bounds, each customer's counter matches the
   * ledger, every record's shelf count plus its copies on loan is its total,
   * and every active rental refers to a record of the catalogue.
   */
  predicate Consistent(records: seq<Records.Record>, t: Rentals.Tables)
  {
    && Records.UniqueIds(records)
    && Records.AllInStock(records)
    && Rentals.UniqueCustomerIds(t.customers)
    && Rentals.UniqueRentalIds(t.rentals)
    && Rentals.CountersMatch(t)
    && Balanced(records, t.rentals)
    && LoansKnown(records, t.rentals)
  }

  /** Every record's copies on the shelf plus its copies on loan make up its total. */
  predicate Balanced(records: seq<Records.Record>, rentals: seq<Rentals.Rental>)
  {
    forall i :: 0 <= i < |records| ==>
      records[i].availableCopies + OnLoan(rentals, records[i].id) == records[i].totalCopies
  }

  /** Every active rental refers to a record of the catalogue. */
  predicate LoansKnown(records: seq<Records.Record>, rentals: seq<Rentals.Rental>)
  {
    forall j :: 0 <= j < |rentals| && rentals[j].status == Rentals.Active ==>
      Records.FindRecord(records, rentals[j].recordId).Some?
  }

  /** The ledger's creation together with the decrease of the same record keeps both services consistent. */
  lemma CreateAndDecreaseKeepConsistent(records: seq<Records.Record>, t: Rentals.Tables, req: Rentals.RentalRequest, today: int)
    requires Consistent(records, t)
    requires Rentals.Create(t, req, today).outcome.Ok?
    requires req.recordId.Some? && Records.Decreased(records, req.recordId.value).outcome.Ok?
    ensures Consistent(Records.Decreased(records, req.recordId.value).records, Rentals.Create(t, req, today).after)
  {
    var rid := req.recordId.value;
    var c := Rentals.Create(t, req, today);
    var d := Records.Decreased(records, rid);
    Rentals.CreateSpec(t, req, today);
    Records.DecreasedSpec(records, rid);
    Records.MutationsKeepBounds(records, rid);
    Rentals.CreateKeepsIdsUnique(t, req, today);
    Rentals.CreateKeepsCounters(t, req, today);
    var r := c.outcome.value;
    var k := Records.FindRecord(records, rid).value;
    Rentals.CreateKeepsCustomerIds(t, req, today);
    CreateDecreaseBalanced(records, t.rentals, r, k, d.records, c.after.rentals);
    CreateDecreaseKnown(records, t.rentals, r, d.records, c.after.rentals);
  }

  /** A new active rental of record `k` together with one copy less of `k` keeps every record balanced. */
  lemma CreateDecreaseBalanced(records: seq<Records.Record>, rentals: seq<Rentals.Rental>, r: Rentals.Rental, k: nat,
                               records': seq<Records.Record>, rentals': seq<Rentals.Rental>)
    requires Records.UniqueIds(records) && Balanced(records, rentals)
    requires rentals' == rentals + [r] && r.status == Rentals.Active
    requires k < |records| && r.recordId == records[k].id
    requires Records.OnlyCounterOf(records, records', k) && records'[k].availableCopies == records[k].availableCopies - 1
    ensures Balanced(records', rentals')
  {
    forall i | 0 <= i < |records'|
      ensures records'[i].availableCopies + OnLoan(rentals', records'[i].id) == records'[i].totalCopies
    {
      FilterSnoc(rentals, r, (x: Rentals.Rental) => OnLoanOf(x, records[i].id));
    }
  }

  /** Appending a rental of a catalogued record, with the record ids unchanged, keeps every loan known. */
  lemma CreateDecreaseKnown(records: seq<Records.Record>, rentals: seq<Rentals.Rental>, r: Rentals.Rental,
                            records': seq<Records.Record>, rentals': seq<Rentals.Rental>)
    requires LoansKnown(records, rentals) && Records.SameIds(records, records')
    requires rentals' == rentals + [r] && Records.FindRecord(records, r.recordId).Some?
    ensures LoansKnown(records', rentals')
  {
    forall j | 0 <= j < |rentals'| && rentals'[j].status == Rentals.Active
      ensures Records.FindRecord(records', rentals'[j].recordId).Some?
    {
      Records.FindRecordSameIds(records, records', rentals'[j].recordId);
      if j < |rentals| {
        assert rentals'[j] == rentals[j];
      }
    }
  }

  /** In a consistent state the record of a rental being returned is below its total, so the increase succeeds. */
  lemma ReturnFreesCopy(records: seq<Records.Record>, t: Rentals.Tables, id: int, today: int)
    requires Consistent(records, t)
    requires Rentals.Return(t, id, today).outcome.Ok?
    ensures Records.Increased(records, Rentals.Return(t, id, today).outcome.value.recordId).outcome.Ok?
  {
    Rentals.ReturnSpec(t, id, today);
    var j := Rentals.FindRental(t.rentals, id).value;
    var rid := t.rentals[j].recordId;
    assert Records.FindRecord(records, rid).Some?;
    var k := Records.FindRecord(records, rid).value;
    FilterSplit(t.rentals, j, (x: Rentals.Rental) => OnLoanOf(x, rid));
    assert records[k].availableCopies < records[k].totalCopies;
  }

  /** The returned rental stops counting as a loan exactly as its record gains a copy. */
  lemma ReturnRebalances(records: seq<Records.Record>, t: Rentals.Tables, id: int, today: int)
    requires Records.UniqueIds(records) && Balanced(records, t.rentals)
    requires Rentals.Return(t, id, today).outcome.Ok?
    requires Records.Increased(records, Rentals.Return(t, id, today).outcome.value.recordId).outcome.Ok?
    ensures Balanced(Records.Increased(records, Rentals.Return(t, id, today).outcome.value.recordId).records,
                     Rentals.Return(t, id, today).after.rentals)
  {
    var s := Rentals.Return(t, id, today);
    Rentals.ReturnSpec(t, id, today);
    var rid := s.outcome.value.recordId;
    Records.IncreasedSpec(records, rid);
    ReturnIncreaseBalanced(records, t.rentals, Rentals.FindRental(t.rentals, id).value, s.outcome.value,
                           Records.FindRecord(records, rid).value, Records.Increased(records, rid).records, s.after.rentals);
  }

  /** Closing an active rental of record `k` together with one copy more of `k` keeps every record balanced. */
  lemma ReturnIncreaseBalanced(records: seq<Records.Record>, rentals: seq<Rentals.Rental>, j: nat, back: Rentals.Rental, k: nat,
                               records': seq<Records.Record>, rentals': seq<Rentals.Rental>)
    requires Records.UniqueIds(records) && Balanced(records, rentals)
    requires j < |rentals| && rentals[j].status == Rentals.Active && rentals' == rentals[j := back]
    requires back.status == Rentals.Returned && back.recordId == rentals[j].recordId
    requires k < |records| && records[k].id == back.recordId
    requires Records.OnlyCounterOf(records, records', k) && records'[k].availableCopies == records[k].availableCopies + 1
    ensures Balanced(records', rentals')
  {
    forall i | 0 <= i < |records'|
      ensures records'[i].availableCopies + OnLoan(rentals', records'[i].id) == records'[i].totalCopies
    {
      if i == k {
        FilterUpdateDrop(rentals, j, back, (x: Rentals.Rental) => OnLoanOf(x, records[i].id));
      } else {
        FilterUpdateSame(rentals, j, back, (x: Rentals.Rental) => OnLoanOf(x, records[i].id));
      }
    }
  }

  /** The ledger's return together with the increase of the rental's record keeps both services consistent. */
  lemma ReturnAndIncreaseKeepConsistent(records: seq<Records.Record>, t: Rentals.Tables, id: int, today: int)
    requires Consistent(records, t)
    requires Rentals.Return(t, id, today).outcome.Ok?
    ensures var rid := Rentals.Return(t, id, today).outcome.value.recordId;
      && Records.Increased(records, rid).outcome.Ok?
      && Consistent(Records.Increased(records, rid).records, Rentals.Return(t, id, today).after)
  {
    var s := Rentals.Return(t, id, today);
    var rid := s.outcome.value.recordId;
    ReturnFreesCopy(records, t, id, today);
    ReturnRebalances(records, t, id, today);
    Rentals.ReturnSpec(t, id, today);
    Rentals.ReturnKeepsIdsUnique(t, id, today);
    Rentals.ReturnKeepsCounters(t, id, today);
    var u := Records.Increased(records, rid);
    Records.MutationsKeepBounds(records, rid);
    Rentals.ReturnKeepsCustomerIds(t, id, today);
    ReturnIncreaseKnown(records, t.rentals, Rentals.FindRental(t.rentals, id).value, s.outcome.value, u.records, s.after.rentals);
  }

  /** Closing one rental, with the record ids unchanged, keeps every loan known. */
  lemma ReturnIncreaseKnown(records: seq<Records.Record>, rentals: seq<Rentals.Rental>, j: nat, back: Rentals.Rental,
                            records': seq<Records.Record>, rentals': seq<Rentals.Rental>)
    requires LoansKnown(records, rentals) && Records.SameIds(records, records')
    requires j < |rentals| && rentals' == rentals[j := back] && back.status == Rentals.Returned
    ensures LoansKnown(records', rentals')
  {
    forall j' | 0 <= j' < |rentals'| && rentals'[j'].status == Rentals.Active
      ensures Records.FindRecord(records', rentals'[j'].recordId).Some?
    {
      Records.FindRecordSameIds(records, records', rentals'[j'].recordId);
      assert j' != j && rentals'[j'] == rentals[j'];
    }
  }

  /** A rental created without the matching decrease leaves the services inconsistent. */
  lemma CreateWithoutDecreaseBreaks(records: seq<Records.Record>, t: Rentals.Tables, req: Rentals.RentalRequest, today: int)
    requires Consistent(records, t)
    requires Rentals.Create(t, req, today).outcome.Ok?
    requires req.recordId.Some? && Records.FindRecord(records, req.recordId.value).Some?
    ensures !Consistent(records, Rentals.Create(t, req, today).after)
  {
    var rid := req.recordId.value;
    var k := Records.FindRecord(records, rid).value;
    Rentals.CreateSpec(t, req, today);
    var r := Rentals.Create(t, req, today).outcome.value;
    FilterSnoc(t.rentals, r, (x: Rentals.Rental) => OnLoanOf(x, rid));
  }

  /** A return recorded without the matching increase leaves the services inconsistent. */
  lemma ReturnWithoutIncreaseBreaks(records: seq<Records.Record>, t: Rentals.Tables, id: int, today: int)
    requires Consistent(records, t)
    requires Rentals.Return(t, id, today).outcome.Ok?
    ensures !Consistent(records, Rentals.Return(t, id, today).after)
  {
    var s := Rentals.Return(t, id, today);
    Rentals.ReturnSpec(t, id, today);
    var j := Rentals.FindRental(t.rentals, id).value;
    var rid := t.rentals[j].recordId;
    var k := Records.FindRecord(records, rid).value;
    FilterUpdateDrop(t.rentals, j, s.outcome.value, (x: Rentals.Rental) => OnLoanOf(x, rid));
  }

  // --------------------------------------------------------------- the sagas

  /** The body of `POST /rent`; a field absent from the JSON is None. */
  datatype RentRequest = RentRequest(customerId: Option<int>, recordId: Option<int>, rentalDays: Option<int>)

  /** The first required field absent from the request, in the order the gateway checks them. */
  function Missing(req: RentRequest): Option<string>
  {
    if req.customerId.None? then Some("customer_id")
    else if req.recordId.None? then Some("record_id")
    else if req.rentalDays.None? then Some("rental_days")
    else None
  }

  /** What the gateway posts to the ledger: the request plus the record's title and price as snapshots. */
  function LedgerRequest(req: RentRequest, rec: Records.Record): Rentals.RentalRequest
  {
    Rentals.RentalRequest(req.customerId, req.recordId, Some(rec.title), Some(rec.dailyRentalPrice), req.rentalDays)
  }

  /** The answer of `PUT /return/<id>`: the returned rental and its fee. */
  datatype Receipt = Receipt(rental: Rentals.Rental, lateFee: int)

  /** A saga's answer, the calls it made, and the state it leaves in both services. */
  datatype Saga<T> = Saga(outcome: Result<T, Failure>, calls: seq<Call>, records: seq<Records.Record>, tables: Rentals.Tables)

  /** `POST /rent`: check the record, check the customer, create the rental, take the copy off the shelf. */
  function RentSaga(records: seq<Records.Record>, t: Rentals.Tables, req: RentRequest, today: int, down: set<Call>): Saga<Rentals.Rental>
  {
    match Missing(req)
    case Some(f) => Saga(Err(MissingField(f)), [], records, t)
    case None =>
      var rid := req.recordId.value;
      if GetRecord in down then Saga(Err(Unavailable), RentPlan[..1], records, t)
      else match Records.GetRecord(records, rid)
      case None => Saga(Err(RecordNotFound), RentPlan[..1], records, t)
      case Some(rec) =>
        if rec.availableCopies <= 0 then Saga(Err(NoCopies), RentPlan[..1], records, t)
        else if GetCustomer in down then Saga(Err(Unavailable), RentPlan[..2], records, t)
        else if Rentals.GetCustomer(t.customers, req.customerId.value).None? then
          Saga(Err(CustomerNotFound), RentPlan[..2], records, t)
        else if PostRental in down then Saga(Err(Unavailable), RentPlan[..3], records, t)
        else
          var created := Rentals.Create(t, LedgerRequest(req, rec), today);
          match created.outcome
          case Err(e) => Saga(Err(Rejected(e)), RentPlan[..3], records, created.after)
          case Ok(rental) =>
            if DecreaseCopies in down then Saga(Err(Unavailable), RentPlan, records, created.after)
            else
              var dec := Records.Decreased(records, rid);
              if dec.outcome.Err? then Saga(Err(Unavailable), RentPlan, dec.records, created.after)
              else Saga(Ok(rental), RentPlan, dec.records, created.after)
  }

  /** `PUT /return/<id>`: check the rental, record the return in the ledger, put the copy back. */
  function ReturnSaga(records: seq<Records.Record>, t: Rentals.Tables, id: int, today: int, down: set<Call>): Saga<Receipt>
  {
    if GetRental in down then Saga(Err(Unavailable), ReturnPlan[..1], records, t)
    else match Rentals.GetRental(t.rentals, id)
    case None => Saga(Err(RentalNotFound), ReturnPlan[..1], records, t)
    case Some(r) =>
      if r.status == Rentals.Returned then Saga(Err(AlreadyReturned), ReturnPlan[..1], records, t)
      else if PutReturn in down then Saga(Err(Unavailable), ReturnPlan[..2], records, t)
      else
        var back := Rentals.Return(t, id, today);
        match back.outcome
        case Err(_) => Saga(Err(Unavailable), ReturnPlan[..2], records, back.after)
        case Ok(done) =>
          if IncreaseCopies in down then Saga(Err(Unavailable), ReturnPlan, records, back.after)
          else
            var inc := Records.Increased(records, r.recordId);
            if inc.outcome.Err? then Saga(Err(Unavailable), ReturnPlan, inc.records, back.after)
            else Saga(Ok(Receipt(done, done.lateFee)), ReturnPlan, inc.records, back.after)
  }

  /**
   * Rent issues its calls in plan order and validates before calling anyone: a
   * missing field is a 400 with no call, and a complete request makes at least one call.
   */
  lemma RentOrder(records: seq<Records.Record>, t: Rentals.Tables, req: RentRequest, today: int, down: set<Call>)
    ensures var s := RentSaga(records, t, req, today, down);
      && s.calls <= RentPlan
      && (Missing(req).Some? <==> s.calls == [])
      && (Missing(req).Some? ==> s.outcome == Err(MissingField(Missing(req).value)))
  {
    RentPlanPrefixes();
  }

  /**
   * Rent writes in plan order: an aborted check (record missing, shelf empty,
   * customer missing) or a failed transport before the ledger write changes
   * neither service, and the inventory is untouched until the ledger has
   * accepted the rental.
   */
  lemma RentWritesInOrder(records: seq<Records.Record>, t: Rentals.Tables, req: RentRequest, today: int, down: set<Call>)
    ensures var s := RentSaga(records, t, req, today, down);
      && (|s.calls| <= 2 ==> s.records == records && s.tables == t)
      && (|s.calls| <= 3 ==> s.records == records)
  {
    RentPlanPrefixes();
  }

  /** A decrease is only issued after the ledger write, and then the ledger holds what that write produced. */
  lemma RentDecreasesAfterLedger(records: seq<Records.Record>, t: Rentals.Tables, req: RentRequest, today: int, down: set<Call>)
    requires DecreaseCopies in RentSaga(records, t, req, today, down).calls
    ensures var s := RentSaga(records, t, req, today, down);
      && PostRental in s.calls
      && Missing(req).None?
      && Records.GetRecord(records, req.recordId.value).Some?
      && s.tables == Rentals.Create(t, LedgerRequest(req, Records.GetRecord(records, req.recordId.value).value), today).after
  {
    RentPlanPrefixes();
  }

  /** The three early aborts of rent and their answers, in the order the gateway checks them. */
  lemma RentAborts(records: seq<Records.Record>, t: Rentals.Tables, req: RentRequest, today: int, down: set<Call>)
    requires Missing(req).None? && GetRecord !in down
    ensures var s := RentSaga(records, t, req, today, down);
      var found := Records.GetRecord(records, req.recordId.value);
      && (found.None? ==>
            s.outcome == Err(RecordNotFound) && s.calls == [GetRecord] && s.records == records && s.tables == t)
      && (found.Some? && found.value.availableCopies <= 0 ==>
            s.outcome == Err(NoCopies) && s.calls == [GetRecord] && s.records == records && s.tables == t)
      && (found.Some? && found.value.availableCopies > 0 && GetCustomer !in down &&
          Rentals.GetCustomer(t.customers, req.customerId.value).None? ==>
            s.outcome == Err(CustomerNotFound) && s.calls == [GetRecord, GetCustomer] &&
            s.records == records && s.tables == t)
      && (s.outcome == Err(RecordNotFound) ==> found.None?)
      && (s.outcome == Err(NoCopies) ==> found.Some? && found.value.availableCopies <= 0)
      && (s.outcome == Err(CustomerNotFound) ==> Rentals.GetCustomer(t.customers, req.customerId.value).None?)
  {
  }

  /**
   * A ledger refusal (a non-201 answer such as the rental limit) is passed
   * through with its own status code, and the inventory is not asked to change.
   */
  lemma RentPassesRefusalThrough(records: seq<Records.Record>, t: Rentals.Tables, req: RentRequest, today: int, down: set<Call>)
    requires RentSaga(records, t, req, today, down).outcome.Err?
    requires RentSaga(records, t, req, today, down).outcome.error.Rejected?
    ensures var s := RentSaga(records, t, req, today, down);
      var e := s.outcome.error.error;
      && s.calls == [GetRecord, GetCustomer, PostRental]
      && s.records == records && s.tables == t
      && StatusCode(s.outcome.error) == Rentals.StatusCode(e)
      && Rentals.Create(t, LedgerRequest(req, Records.GetRecord(records, req.recordId.value).value), today).outcome == Err(e)
  {
    Rentals.CreateSpec(t, LedgerRequest(req, Records.GetRecord(records, req.recordId.value).value), today);
  }

  /**
   * A successful rent makes every call of the plan, appends exactly one
   * rental carrying the record's title and daily price as snapshots, and
   * takes exactly one copy of that record off the shelf.
   */
  lemma RentSuccess(records: seq<Records.Record>, t: Rentals.Tables, req: RentRequest, today: int, down: set<Call>)
    requires RentSaga(records, t, req, today, down).outcome.Ok?
    ensures Missing(req).None? && Records.GetRecord(records, req.recordId.value).Some?
    ensures var s := RentSaga(records, t, req, today, down);
      var rec := Records.GetRecord(records, req.recordId.value).value;
      var r := s.outcome.value;
      var k := Records.FindRecord(records, req.recordId.value).value;
      && s.calls == RentPlan
      && s.outcome == StatusOk(Rentals.Create(t, LedgerRequest(req, rec), today).outcome)
      && s.tables.rentals == t.rentals + [r]
      && r.recordId == rec.id && r.recordTitle == rec.title && r.dailyPrice == rec.dailyRentalPrice
      && r.customerId == req.customerId.value && r.rentalDays == req.rentalDays.value
      && s.records == Records.Decreased(records, rec.id).records
      && Records.OnlyCounterOf(records, s.records, k)
      && s.records[k].availableCopies == records[k].availableCopies - 1
  {
    var rec := Records.GetRecord(records, req.recordId.value).value;
    Rentals.CreateSpec(t, LedgerRequest(req, rec), today);
    Records.DecreasedSpec(records, rec.id);
  }

  /**
   * The round trip through the gateway: a rental that succeeded, returned the
   * same day with every call delivered, succeeds without a late fee and puts
   * the catalogue back as it was before the rental.
   */
  lemma RentThenReturnSameDay(records: seq<Records.Record>, t: Rentals.Tables, req: RentRequest, today: int)
    requires Records.AllInStock(records)
    requires req.rentalDays.Some? && req.rentalDays.value >= 0
    requires RentSaga(records, t, req, today, {}).outcome.Ok?
    ensures var s := RentSaga(records, t, req, today, {});
      var back := ReturnSaga(s.records, s.tables, s.outcome.value.id, today, {});
      && back.outcome.Ok?
      && back.outcome.value.lateFee == 0
      && back.records == records
  {
    RentAllDelivered(records, t, req, today);
    var rec := Records.GetRecord(records, req.recordId.value).value;
    var created := Rentals.Create(t, LedgerRequest(req, rec), today);
    Rentals.CreateThenReturnSameDay(t, LedgerRequest(req, rec), today);
    Rentals.CreateSpec(t, LedgerRequest(req, rec), today);
    Records.DecreaseThenIncrease(records, rec.id);
    ReturnAllDelivered(Records.Decreased(records, rec.id).records, created.after, created.outcome.value.id, today);
  }

  /** With every call delivered, a successful rent is the ledger's creation followed by the decrease of its record. */
  lemma RentAllDelivered(records: seq<Records.Record>, t: Rentals.Tables, req: RentRequest, today: int)
    requires RentSaga(records, t, req, today, {}).outcome.Ok?
    ensures Missing(req).None? && Records.GetRecord(records, req.recordId.value).Some?
    ensures var rec := Records.GetRecord(records, req.recordId.value).value;
      var created := Rentals.Create(t, LedgerRequest(req, rec), today);
      && created.outcome.Ok?
      && rec.id == req.recordId.value
      && RentSaga(records, t, req, today, {}) ==
           Saga(Ok(created.outcome.value), RentPlan, Records.Decreased(records, req.recordId.value).records, created.after)
  {
  }

  /** With every call delivered, return answers what the ledger's return and the increase of its record answer. */
  lemma ReturnAllDelivered(records: seq<Records.Record>, t: Rentals.Tables, id: int, today: int)
    requires Rentals.Return(t, id, today).outcome.Ok?
    requires Records.Increased(records, Rentals.Return(t, id, today).outcome.value.recordId).outcome.Ok?
    ensures var back := Rentals.Return(t, id, today).outcome.value;
      ReturnSaga(records, t, id, today, {}) ==
        Saga(Ok(Receipt(back, back.lateFee)), ReturnPlan, Records.Increased(records, back.recordId).records,
             Rentals.Return(t, id, today).after)
  {
    Rentals.ReturnSpec(t, id, today);
  }

  /** The ledger's outcome seen through the gateway: a rental stays a rental, a refusal is passed through. */
  function StatusOk(o: Result<Rentals.Rental, Rentals.LedgerError>): Result<Rentals.Rental, Failure>
  {
    match o
    case Ok(r) => Ok(r)
    case Err(e) => Err(Rejected(e))
  }

  /**
   * No rollback: when the final decrease fails after the ledger accepted the
   * rental, the answer is 503, the created rental stays in the ledger, the
   * inventory keeps its count, and the services, consistent before, are not
   * any more.
   */
  lemma RentNoRollback(records: seq<Records.Record>, t: Rentals.Tables, req: RentRequest, today: int, down: set<Call>)
    requires RentSaga(records, t, req, today, down).calls == RentPlan
    requires RentSaga(records, t, req, today, down).outcome.Err?
    ensures Missing(req).None? && Records.GetRecord(records, req.recordId.value).Some?
    ensures var s := RentSaga(records, t, req, today, down);
      var rec := Records.GetRecord(records, req.recordId.value).value;
      && s.outcome == Err(Unavailable)
      && s.tables == Rentals.Create(t, LedgerRequest(req, rec), today).after
      && |s.tables.rentals| == |t.rentals| + 1
      && s.records == records
      && (Consistent(records, t) ==> DecreaseCopies in down && !Consistent(s.records, s.tables))
  {
    var rec := Records.GetRecord(records, req.recordId.value).value;
    var lreq := LedgerRequest(req, rec);
    Rentals.CreateSpec(t, lreq, today);
    Records.DecreasedSpec(records, rec.id);
    if Consistent(records, t) {
      CreateWithoutDecreaseBreaks(records, t, lreq, today);
    }
  }

  /** Rent either leaves both services as they were or runs the ledger creation, then possibly the decrease. */
  lemma RentShape(records: seq<Records.Record>, t: Rentals.Tables, req: RentRequest, today: int, down: set<Call>)
    ensures var s := RentSaga(records, t, req, today, down);
      || (s.records == records && s.tables == t)
      || (&& s.calls == RentPlan
          && Missing(req).None?
          && Records.GetRecord(records, req.recordId.value).Some?
          && var lreq := LedgerRequest(req, Records.GetRecord(records, req.recordId.value).value);
          && lreq.recordId == req.recordId
          && Rentals.Create(t, lreq, today).outcome.Ok?
          && s.tables == Rentals.Create(t, lreq, today).after
          && (DecreaseCopies !in down ==>
                && Records.Decreased(records, req.recordId.value).outcome.Ok?
                && s.records == Records.Decreased(records, req.recordId.value).records))
  {
    if Missing(req).None? && Records.GetRecord(records, req.recordId.value).Some? {
      Rentals.CreateSpec(t, LedgerRequest(req, Records.GetRecord(records, req.recordId.value).value), today);
      Records.DecreasedSpec(records, req.recordId.value);
    }
  }

  /** Rent keeps the services consistent on every path except the missed decrease. */
  lemma RentKeepsConsistent(records: seq<Records.Record>, t: Rentals.Tables, req: RentRequest, today: int, down: set<Call>)
    requires Consistent(records, t)
    requires DecreaseCopies !in down
    ensures Consistent(RentSaga(records, t, req, today, down).records, RentSaga(records, t, req, today, down).tables)
  {
    RentShape(records, t, req, today, down);
    var s := RentSaga(records, t, req, today, down);
    if !(s.records == records && s.tables == t) {
      CreateAndDecreaseKeepConsistent(records, t, LedgerRequest(req, Records.GetRecord(records, req.recordId.value).value), today);
    }
  }

  /**
   * Return issues its calls in plan order. An unknown rental is a 404 and a
   * rental already returned a 400, both after one read and with no change;
   * the ledger is written before the inventory, which is otherwise untouched.
   */
  lemma ReturnOrder(records: seq<Records.Record>, t: Rentals.Tables, id: int, today: int, down: set<Call>)
    ensures var s := ReturnSaga(records, t, id, today, down);
      var found := Rentals.GetRental(t.rentals, id);
      && s.calls <= ReturnPlan && |s.calls| >= 1
      && (GetRental !in down && found.None? ==> s.outcome == Err(RentalNotFound) && s.calls == [GetRental])
      && (GetRental !in down && found.Some? && found.value.status == Rentals.Returned ==>
            s.outcome == Err(AlreadyReturned) && s.calls == [GetRental])
      && (s.outcome == Err(RentalNotFound) ==> found.None?)
      && (s.outcome == Err(AlreadyReturned) ==> found.Some? && found.value.status == Rentals.Returned)
      && (|s.calls| <= 1 ==> s.records == records && s.tables == t)
      && (|s.calls| <= 2 ==> s.records == records)
  {
    Rentals.ReturnSpec(t, id, today);
  }

  /**
   * A successful return makes every call of the plan, records the return in
   * the ledger, puts one copy of the rental's record back, and answers with
   * the ledger's late fee.
   */
  lemma ReturnSuccess(records: seq<Records.Record>, t: Rentals.Tables, id: int, today: int, down: set<Call>)
    requires ReturnSaga(records, t, id, today, down).outcome.Ok?
    ensures Rentals.GetRental(t.rentals, id).Some?
    ensures var s := ReturnSaga(records, t, id, today, down);
      var r := Rentals.GetRental(t.rentals, id).value;
      var receipt := s.outcome.value;
      && s.calls == ReturnPlan
      && r.status == Rentals.Active
      && Rentals.Return(t, id, today).outcome == Ok(receipt.rental)
      && s.tables == Rentals.Return(t, id, today).after
      && receipt.lateFee == receipt.rental.lateFee == Rentals.LateFee(r.dueDate, today, r.dailyPrice)
      && s.records == Records.Increased(records, r.recordId).records
      && Records.Increased(records, r.recordId).outcome.Ok?
  {
    Rentals.ReturnSpec(t, id, today);
  }

  /**
   * In a consistent state neither service refuses a return the gateway has
   * checked, so a 503 always comes from the transport: the last call issued
   * was one that failed.
   */
  lemma ReturnFailsOnlyInTransit(records: seq<Records.Record>, t: Rentals.Tables, id: int, today: int, down: set<Call>)
    requires Consistent(records, t)
    requires ReturnSaga(records, t, id, today, down).outcome == Err(Unavailable)
    ensures var s := ReturnSaga(records, t, id, today, down);
      |s.calls| > 0 && s.calls[|s.calls| - 1] in down
  {
    var g := Rentals.GetRental(t.rentals, id);
    if g.Some? && g.value.status != Rentals.Returned {
      Rentals.ReturnSpec(t, id, today);
      assert Rentals.Return(t, id, today).outcome.Ok?;
      ReturnFreesCopy(records, t, id, today);
    }
    ReturnUnavailableCause(records, t, id, today, down);
  }

  /** A 503 of return whose ledger and inventory steps would both succeed can only come from a lost call. */
  lemma ReturnUnavailableCause(records: seq<Records.Record>, t: Rentals.Tables, id: int, today: int, down: set<Call>)
    requires ReturnSaga(records, t, id, today, down).outcome == Err(Unavailable)
    requires var g := Rentals.GetRental(t.rentals, id);
      g.Some? && g.value.status != Rentals.Returned ==>
        && Rentals.Return(t, id, today).outcome.Ok?
        && Records.Increased(records, Rentals.Return(t, id, today).outcome.value.recordId).outcome.Ok?
        && Rentals.Return(t, id, today).outcome.value.recordId == g.value.recordId
    ensures var s := ReturnSaga(records, t, id, today, down);
      |s.calls| > 0 && s.calls[|s.calls| - 1] in down
  {
  }

  /**
   * No rollback: when the increase is lost after the ledger recorded the
   * return, the answer is 503, the ledger keeps the return, the inventory
   * keeps its count, and the services, consistent before, are not any more.
   */
  lemma ReturnNoRollback(records: seq<Records.Record>, t: Rentals.Tables, id: int, today: int, down: set<Call>)
    requires Consistent(records, t)
    requires ReturnSaga(records, t, id, today, down).calls == ReturnPlan
    requires ReturnSaga(records, t, id, today, down).outcome.Err?
    ensures var s := ReturnSaga(records, t, id, today, down);
      && s.outcome == Err(Unavailable)
      && IncreaseCopies in down
      && s.tables == Rentals.Return(t, id, today).after
      && s.records == records
      && !Consistent(s.records, s.tables)
  {
    Rentals.ReturnSpec(t, id, today);
    ReturnFreesCopy(records, t, id, today);
    ReturnWithoutIncreaseBreaks(records, t, id, today);
  }

  /** Return either leaves both services as they were or runs the ledger return, then possibly the increase. */
  lemma ReturnShape(records: seq<Records.Record>, t: Rentals.Tables, id: int, today: int, down: set<Call>)
    ensures var s := ReturnSaga(records, t, id, today, down);
      || (s.records == records && s.tables == t)
      || (&& s.calls == ReturnPlan
          && Rentals.Return(t, id, today).outcome.Ok?
          && s.tables == Rentals.Return(t, id, today).after
          && (IncreaseCopies !in down ==>
                s.records == Records.Increased(records, Rentals.Return(t, id, today).outcome.value.recordId).records))
  {
    Rentals.ReturnSpec(t, id, today);
  }

  /** Return keeps the services consistent on every path except the missed increase. */
  lemma ReturnKeepsConsistent(records: seq<Records.Record>, t: Rentals.Tables, id: int, today: int, down: set<Call>)
    requires Consistent(records, t)
    requires IncreaseCopies !in down
    ensures Consistent(ReturnSaga(records, t, id, today, down).records, ReturnSaga(records, t, id, today, down).tables)
  {
    ReturnShape(records, t, id, today, down);
    if Rentals.Return(t, id, today).outcome.Ok? {
      ReturnAndIncreaseKeepConsistent(records, t, id, today);
    }
  }

  /** `create_rental` of the gateway, run against the two services. */
  method Rent(catalog: Records.Catalog, ledger: Rentals.Ledger, req: RentRequest, today: int, down: set<Call>)
    returns (res: Result<Rentals.Rental, Failure>, calls: seq<Call>)
    modifies catalog, ledger
    ensures Saga(res, calls, catalog.records, ledger.State()) == RentSaga(old(catalog.records), old(ledger.State()), req, today, down)
  {
    var missing := Missing(req);
    if missing.Some? {
      return Err(MissingField(missing.value)), [];
    }
    var rid := req.recordId.value;
    calls := [GetRecord];
    if GetRecord in down {
      return Err(Unavailable), calls;
    }
    var found := Records.GetRecord(catalog.records, rid);
    if found.None? {
      return Err(RecordNotFound), calls;
    }
    var rec := found.value;
    if rec.availableCopies <= 0 {
      return Err(NoCopies), calls;
    }
    calls := calls + [GetCustomer];
    if GetCustomer in down {
      return Err(Unavailable), calls;
    }
    if Rentals.GetCustomer(ledger.customers, req.customerId.value).None? {
      return Err(CustomerNotFound), calls;
    }
    calls := calls + [PostRental];
    if PostRental in down {
      return Err(Unavailable), calls;
    }
    var created := ledger.CreateRental(LedgerRequest(req, rec), today);
    if created.Err? {
      return Err(Rejected(created.error)), calls;
    }
    calls := calls + [DecreaseCopies];
    if DecreaseCopies in down {
      return Err(Unavailable), calls;
    }
    var decreased := catalog.Decrease(rid);
    if decreased.Err? {
      return Err(Unavailable), calls;
    }
    res := Ok(created.value);
  }

  /** `return_rental` of the gateway, run against the two services. */
  method ReturnRental(catalog: Records.Catalog, ledger: Rentals.Ledger, id: int, today: int, down: set<Call>)
    returns (res: Result<Receipt, Failure>, calls: seq<Call>)
    modifies catalog, ledger
    ensures Saga(res, calls, catalog.records, ledger.State()) == ReturnSaga(old(catalog.records), old(ledger.State()), id, today, down)
  {
    calls := [GetRental];
    if GetRental in down {
      return Err(Unavailable), calls;
    }
    var found := Rentals.GetRental(ledger.rentals, id);
    if found.None? {
      return Err(RentalNotFound), calls;
    }
    var rental := found.value;
    if rental.status == Rentals.Returned {
      return Err(AlreadyReturned), calls;
    }
    calls := calls + [PutReturn];
    if PutReturn in down {
      return Err(Unavailable), calls;
    }
    var back := ledger.ReturnRental(id, today);
    if back.Err? {
      return Err(Unavailable), calls;
    }
    calls := calls + [IncreaseCopies];
    if IncreaseCopies in down {
      return Err(Unavailable), calls;
    }
    var increased := catalog.Increase(rental.recordId);
    if increased.Err? {
      return Err(Unavailable), calls;
    }
    res := Ok(Receipt(back.value, back.value.lateFee));
  }

  // ------------------------------------------------------ read-side joins

  /** The `record` part of the availability answer. */
  datatype Summary = Summary(id: int, title: string, artist: string, genre: string, dailyPrice: int)

  datatype Availability = Availability(
    record: Summary,
    availableCopies: int,
    totalCopies: int,
    isAvailable: bool,
    currentlyRentedBy: seq<string>,
    nextAvailable: Option<int>)

  function Names(rentals: seq<Rentals.Rental>): (names: seq<string>)
    ensures |names| == |rentals| && forall i :: 0 <= i < |rentals| ==> names[i] == rentals[i].customerName
  {
    seq(|rentals|, i requires 0 <= i < |rentals| => rentals[i].customerName)
  }

  function DueDates(rentals: seq<Rentals.Rental>): (dues: seq<int>)
    ensures |dues| == |rentals| && forall i :: 0 <= i < |rentals| ==> dues[i] == rentals[i].dueDate
  {
    seq(|rentals|, i requires 0 <= i < |rentals| => rentals[i].dueDate)
  }

  /** Selecting a record's rentals from the active list is selecting its active rentals from the ledger. */
  lemma {:induction false} ActiveOfRecord(rentals: seq<Rentals.Rental>, recordId: int)
    ensures Filter(Rentals.ActiveRentals(rentals), (x: Rentals.Rental) => x.recordId == recordId) == OnLoanList(rentals, recordId)
  {
    if |rentals| > 0 {
      ActiveOfRecord(rentals[1..], recordId);
      var h := [rentals[0]];
      var head := if Rentals.IsActive(rentals[0]) then h else [];
      FilterAppend(head, Rentals.ActiveRentals(rentals[1..]), (x: Rentals.Rental) => x.recordId == recordId);
      assert Filter(h, (x: Rentals.Rental) => x.recordId == recordId) == (if rentals[0].recordId == recordId then h else [])
        by { assert h[1..] == []; }
    }
  }

  /**
   * `GET /records/<id>/availability`: the record, whether a copy is on the
   * shelf, who holds the copies on loan (in ledger order), and, only when the
   * shelf is empty and some copy is on loan, the earliest due date among them.
   */
  function RecordAvailability(records: seq<Records.Record>, rentals: seq<Rentals.Rental>, id: int, down: set<Call>): (a: Result<Availability, Failure>)
    ensures a == Err(RecordNotFound) <==> GetRecord !in down && Records.GetRecord(records, id).None?
    ensures a == Err(Unavailable) <==>
      GetRecord in down || (Records.GetRecord(records, id).Some? && GetActiveRentals in down)
    ensures a.Ok? ==> (Records.GetRecord(records, id).Some? &&
      var rec := Records.GetRecord(records, id).value;
      var loans := OnLoanList(rentals, id);
      var v := a.value;
      && v.record == Summary(rec.id, rec.title, rec.artist, rec.genre, rec.dailyRentalPrice)
      && v.availableCopies == rec.availableCopies && v.totalCopies == rec.totalCopies
      && (v.isAvailable <==> rec.availableCopies > 0)
      && |v.currentlyRentedBy| == |loans|
      && (forall i :: 0 <= i < |loans| ==> v.currentlyRentedBy[i] == loans[i].customerName)
      && (v.nextAvailable.Some? <==> rec.availableCopies == 0 && |loans| > 0)
      && (v.nextAvailable.Some? ==>
            && (forall i :: 0 <= i < |loans| ==> v.nextAvailable.value <= loans[i].dueDate)
            && (exists i :: 0 <= i < |loans| && v.nextAvailable.value == loans[i].dueDate)))
  {
    if GetRecord in down then Err(Unavailable)
    else match Records.GetRecord(records, id)
    case None => Err(RecordNotFound)
    case Some(rec) =>
      if GetActiveRentals in down then Err(Unavailable)
      else
        var mine := Filter(Rentals.ActiveRentals(rentals), (x: Rentals.Rental) => x.recordId == id);
        ActiveOfRecord(rentals, id);
        var names := Names(mine);
        var next := if rec.availableCopies == 0 && |names| > 0 then Some(MinOf(DueDates(mine))) else None;
        Ok(Availability(Summary(rec.id, rec.title, rec.artist, rec.genre, rec.dailyRentalPrice),
                        rec.availableCopies, rec.totalCopies, rec.availableCopies > 0, names, next))
  }

  /** `sum(r['total_cost'] + r['late_fee'] for r in rentals)`. */
  function Spent(rentals: seq<Rentals.Rental>): int
  {
    if |rentals| == 0 then 0 else rentals[0].totalCost + rentals[0].lateFee + Spent(rentals[1..])
  }

  lemma {:induction false} SpentAppend(a: seq<Rentals.Rental>, b: seq<Rentals.Rental>)
    ensures Spent(a + b) == Spent(a) + Spent(b)
  {
    if |a| == 0 {
      assert a + b == b;
    } else {
      assert (a + b)[1..] == a[1..] + b;
      SpentAppend(a[1..], b);
    }
  }

  datatype Statistics = Statistics(totalRentals: nat, activeCount: nat, totalSpent: int, favoriteGenre: string)

  datatype Profile = Profile(customer: Rentals.Customer, activeRentals: seq<Rentals.Rental>, statistics: Statistics)

  /**
   * `GET /customers/<id>/profile`: the customer, their active rentals in
   * ledger order, how many rentals they ever had, and what they spent on
   * rentals and late fees.
   */
  function CustomerProfile(t: Rentals.Tables, id: int, down: set<Call>): (p: Result<Profile, Failure>)
    ensures p == Err(CustomerNotFound) <==> GetCustomer !in down && Rentals.GetCustomer(t.customers, id).None?
    ensures p == Err(Unavailable) <==>
      GetCustomer in down || (Rentals.GetCustomer(t.customers, id).Some? && GetCustomerRentals in down)
    ensures p.Ok? ==> (Rentals.GetCustomer(t.customers, id).Some? &&
      var c := Rentals.GetCustomer(t.customers, id).value;
      var v := p.value;
      && v.customer == c
      && v.activeRentals == Filter(t.rentals, (x: Rentals.Rental) => Rentals.ActiveFor(x, id))
      && v.statistics.activeCount == Rentals.ActiveCount(t.rentals, id)
      && v.statistics.totalRentals == |Rentals.RentalsOf(t.rentals, id)|
      && v.statistics.totalSpent == Spent(Rentals.RentalsOf(t.rentals, id))
      && v.statistics.favoriteGenre == c.favoriteGenre)
  {
    if GetCustomer in down then Err(Unavailable)
    else match Rentals.GetCustomer(t.customers, id)
    case None => Err(CustomerNotFound)
    case Some(c) =>
      if GetCustomerRentals in down then Err(Unavailable)
      else match Rentals.CustomerRentals(t, id)
      case None => Err(Unavailable)
      case Some(h) =>
        Rentals.ActiveOfHistory(t.rentals, id);
        var active := Filter(h.rentals, Rentals.IsActive);
        Ok(Profile(c, active, Statistics(h.totalRentals, |active|, Spent(h.rentals), c.favoriteGenre)))
  }

  /** While counters match the ledger, the profile's active count is the customer's stored counter. */
  lemma ProfileAgreesWithCounter(t: Rentals.Tables, id: int, down: set<Call>)
    requires Rentals.CountersMatch(t)
    requires CustomerProfile(t, id, down).Ok?
    ensures CustomerProfile(t, id, down).value.statistics.activeCount == CustomerProfile(t, id, down).value.customer.activeRentals
  {
    var k := Rentals.FindCustomer(t.customers, id).value;
    assert t.customers[k].activeRentals == Rentals.ActiveCount(t.rentals, t.customers[k].id);
  }

  /** A new rental raises its customer's total spent by exactly its cost, and leaves other customers' totals alone. */
  lemma CreateRaisesSpent(t: Rentals.Tables, req: Rentals.RentalRequest, today: int, customerId: int)
    requires Rentals.Create(t, req, today).outcome.Ok?
    ensures var s := Rentals.Create(t, req, today);
      var r := s.outcome.value;
      Spent(Rentals.RentalsOf(s.after.rentals, customerId)) ==
        Spent(Rentals.RentalsOf(t.rentals, customerId)) + (if r.customerId == customerId then r.totalCost else 0)
  {
    var s := Rentals.Create(t, req, today);
    Rentals.CreateSpec(t, req, today);
    var r := s.outcome.value;
    FilterSnoc(t.rentals, r, (x: Rentals.Rental) => x.customerId == customerId);
    var tail := if r.customerId == customerId then [r] else [];
    SpentAppend(Rentals.RentalsOf(t.rentals, customerId), tail);
    assert Spent(tail) == (if r.customerId == customerId then r.totalCost else 0) by {
      if r.customerId == customerId {
        assert tail[1..] == [];
      }
    }
  }

  datatype Recommendations = Recommendations(
    customerId: int,
    name: string,
    favoriteGenre: string,
    records: seq<Records.Record>,
    totalAvailable: nat)

  /**
   * `GET /recommendations/<customer_id>`: the first five records of the
   * customer's favourite genre with a copy on the shelf, in catalogue order,
   * and how many such records there are.
   */
  function Recommend(customers: seq<Rentals.Customer>, records: seq<Records.Record>, id: int, down: set<Call>): (r: Result<Recommendations, Failure>)
    ensures r == Err(CustomerNotFound) <==> GetCustomer !in down && Rentals.GetCustomer(customers, id).None?
    ensures r == Err(Unavailable) <==>
      GetCustomer in down || (Rentals.GetCustomer(customers, id).Some? && GetGenreRecords in down)
    ensures r.Ok? ==> (Rentals.GetCustomer(customers, id).Some? &&
      var c := Rentals.GetCustomer(customers, id).value;
      var pool := Records.ByGenre(Records.Available(records), c.favoriteGenre);
      var v := r.value;
      && v.customerId == c.id && v.name == c.name && v.favoriteGenre == c.favoriteGenre
      && |v.records| <= 5
      && |v.records| == Min(5, v.totalAvailable)
      && v.totalAvailable == |pool|
      && v.records == pool[..|v.records|]
      && (forall i :: 0 <= i < |v.records| ==>
            v.records[i] in records && Records.GenreMatches(v.records[i], c.favoriteGenre) && v.records[i].availableCopies > 0))
  {
    if GetCustomer in down then Err(Unavailable)
    else match Rentals.GetCustomer(customers, id)
    case None => Err(CustomerNotFound)
    case Some(c) =>
      if GetGenreRecords in down then Err(Unavailable)
      else
        var pool := Filter(Records.ByGenre(records, c.favoriteGenre), Records.IsAvailable);
        FilterCommutes(records, (x: Records.Record) => Records.GenreMatches(x, c.favoriteGenre), Records.IsAvailable);
        Ok(Recommendations(c.id, c.name, c.favoriteGenre, Take(pool, 5), |pool|))
  }
}
