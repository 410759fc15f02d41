/**
 * The rentals service of the rental shop (desafio5/rentals-service): the
 * customers, their rental quotas, and the ledger of rentals.
 *
 * `customers_db` and `rentals_db` are lists the service mutates in place; here
 * they are the fields of class `Ledger`, and their value together is `Tables`.
 * Money is in integer cents and dates are day numbers; the current day is a
 * parameter (`today`) where the service calls `datetime.now()`.
 */
module RentalsService {
  import opened Common

  datatype Status = Active | Returned

  datatype Customer = Customer(
    id: int,
    name: string,
    favoriteGenre: string,
    membershipTier: string,
    maxRentals: int,
    activeRentals: int)   // the stored counter `active_rentals`

  datatype Rental = Rental(
    id: int,
    customerId: int,
    customerName: string,  // snapshot taken at creation
    recordId: int,
    recordTitle: string,   // snapshot taken at creation
    rentedAt: int,
    dueDate: int,
    returnedAt: Option<int>,
    dailyPrice: int,       // snapshot taken at creation, cents
    rentalDays: int,
    totalCost: int,        // cents
    status: Status,
    lateFee: int)          // cents

  /** The body of `POST /rentals`; a field absent from the JSON is None. */
  datatype RentalRequest = RentalRequest(
    customerId: Option<int>,
    recordId: Option<int>,
    recordTitle: Option<string>,
    dailyPrice: Option<int>,
    rentalDays: Option<int>)

  datatype LedgerError =
    | MissingField(field: string)
    | CustomerNotFound
    | RentalLimitReached(current: nat, max: int)
    | RentalNotFound
    | AlreadyReturned

  function StatusCode(e: LedgerError): int
  {
    match e
    case CustomerNotFound => 404
    case RentalNotFound => 404
    case _ => 400
  }

  /** Both tables of the service. */
  datatype Tables = Tables(customers: seq<Customer>, rentals: seq<Rental>)

  /** What a mutating endpoint answers and the tables it leaves behind. */
  datatype LedgerStep = LedgerStep(outcome: Result<Rental, LedgerError>, after: Tables)

  // ---------------------------------------------------------------- lookups

  function FindCustomer(customers: seq<Customer>, id: int): (k: Option<nat>)
    ensures k.Some? ==> k.value < |customers| && customers[k.value].id == id
    ensures k.Some? ==> forall j :: 0 <= j < k.value ==> customers[j].id != id
    ensures k.None? ==> forall j :: 0 <= j < |customers| ==> customers[j].id != id
  {
    FindFirst(customers, (c: Customer) => c.id == id)
  }

  function FindRental(rentals: seq<Rental>, id: int): (k: Option<nat>)
    ensures k.Some? ==> k.value < |rentals| && rentals[k.value].id == id
    ensures k.Some? ==> forall j :: 0 <= j < k.value ==> rentals[j].id != id
    ensures k.None? ==> forall j :: 0 <= j < |rentals| ==> rentals[j].id != id
  {
    FindFirst(rentals, (r: Rental) => r.id == id)
  }

  /** `GET /customers/<id>`: the first customer with that id, or None for a 404. */
  function GetCustomer(customers: seq<Customer>, id: int): (c: Option<Customer>)
    ensures c.Some? <==> exists j :: 0 <= j < |customers| && customers[j].id == id
    ensures c.Some? ==> c.value in customers && c.value.id == id
  {
    match FindCustomer(customers, id)
    case None => None
    case Some(k) => Some(customers[k])
  }

  /** `GET /rentals/<id>`: the first rental with that id, or None for a 404. */
  function GetRental(rentals: seq<Rental>, id: int): (r: Option<Rental>)
    ensures r.Some? <==> exists j :: 0 <= j < |rentals| && rentals[j].id == id
    ensures r.Some? ==> r.value in rentals && r.value.id == id
  {
    match FindRental(rentals, id)
    case None => None
    case Some(k) => Some(rentals[k])
  }

  predicate IsActive(r: Rental) { r.status == Active }

  predicate ActiveFor(r: Rental, customerId: int) { r.customerId == customerId && r.status == Active }

  /** `GET /rentals/active`: the active rentals, in ledger order. */
  function ActiveRentals(rentals: seq<Rental>): (r: seq<Rental>)
    ensures forall i :: 0 <= i < |r| ==> r[i] in rentals && r[i].status == Active
    ensures forall i :: 0 <= i < |rentals| && rentals[i].status == Active ==> rentals[i] in r
  {
    Filter(rentals, IsActive)
  }

  /** The rentals of one customer, in ledger order. */
  function RentalsOf(rentals: seq<Rental>, customerId: int): (r: seq<Rental>)
    ensures forall i :: 0 <= i < |r| ==> r[i] in rentals && r[i].customerId == customerId
    ensures forall i :: 0 <= i < |rentals| && rentals[i].customerId == customerId ==> rentals[i] in r
  {
    Filter(rentals, (x: Rental) => x.customerId == customerId)
  }

  /** The quota check's count: rentals of the customer in `rentals_db` whose status is active. */
  function ActiveCount(rentals: seq<Rental>, customerId: int): nat
  {
    |Filter(rentals, (x: Rental) => ActiveFor(x, customerId))|
  }

  /** The answer of `GET /rentals/customer/<id>`. */
  datatype History = History(
    customerId: int,
    customerName: string,
    totalRentals: nat,
    activeRentals: nat,
    rentals: seq<Rental>)

  /** `GET /rentals/customer/<id>`: None (a 404) for an unknown customer, else the customer's history. */
  function CustomerRentals(t: Tables, customerId: int): (h: Option<History>)
    ensures h.None? <==> GetCustomer(t.customers, customerId).None?
    ensures h.Some? ==>
      && h.value.rentals == RentalsOf(t.rentals, customerId)
      && h.value.totalRentals == |h.value.rentals|
      && h.value.activeRentals == ActiveCount(t.rentals, customerId)
      && h.value.customerName == GetCustomer(t.customers, customerId).value.name
  {
    match GetCustomer(t.customers, customerId)
    case None => None
    case Some(c) =>
      var mine := RentalsOf(t.rentals, customerId);
      ActiveOfHistory(t.rentals, customerId);
      Some(History(customerId, c.name, |mine|, |Filter(mine, IsActive)|, mine))
  }

  /** The active rentals of a customer's history are the ones the quota check counts, in the same order. */
  lemma {:induction false} ActiveOfHistory(rentals: seq<Rental>, customerId: int)
    ensures Filter(RentalsOf(rentals, customerId), IsActive) == Filter(rentals, (x: Rental) => ActiveFor(x, customerId))
  {
    if |rentals| > 0 {
      ActiveOfHistory(rentals[1..], customerId);
      var h := [rentals[0]];
      var head := if rentals[0].customerId == customerId then h else [];
      FilterAppend(head, RentalsOf(rentals[1..], customerId), IsActive);
      assert Filter(h, IsActive) == (if IsActive(rentals[0]) then h else []) by { assert h[1..] == []; }
    }
  }

  // ------------------------------------------------------ money and dates

  /** The fee charged at return: one daily price per whole day past the due date, 0 on or before it. */
  function LateFee(dueDate: int, today: int, dailyPrice: int): int
  {
    if today > dueDate then (today - dueDate) * dailyPrice else 0
  }

  /** A price of 10.00 (1000 cents) returned two days late costs 20.00 (2000 cents) in fees. */
  lemma LateFeeExample(rentedAt: int)
    ensures LateFee(rentedAt + 3, rentedAt + 3 + 2, 1000) == 2000
  {
  }

  /** Fees are never negative for a non-negative price, and grow with the delay. */
  lemma LateFeeMonotone(dueDate: int, day1: int, day2: int, dailyPrice: int)
    requires day1 <= day2 && dailyPrice >= 0
    ensures 0 <= LateFee(dueDate, day1, dailyPrice) <= LateFee(dueDate, day2, dailyPrice)
  {
    if day1 > dueDate {
      assert (day2 - dueDate) * dailyPrice == (day1 - dueDate) * dailyPrice + (day2 - day1) * dailyPrice;
    }
  }

  // ------------------------------------------------------------- creation

  /** The first required field absent from the request, in the order the service checks them. */
  function FirstMissing(req: RentalRequest): Option<string>
  {
    if req.customerId.None? then Some("customer_id")
    else if req.recordId.None? then Some("record_id")
    else if req.recordTitle.None? then Some("record_title")
    else if req.dailyPrice.None? then Some("daily_price")
    else if req.rentalDays.None? then Some("rental_days")
    else None
  }

  function RentalIds(rentals: seq<Rental>): seq<int>
  {
    Ids(rentals, (r: Rental) => r.id)
  }

  /** `POST /rentals`. */
  function Create(t: Tables, req: RentalRequest, today: int): (s: LedgerStep)
  {
    match FirstMissing(req)
    case Some(f) => LedgerStep(Err(MissingField(f)), t)
    case None =>
      var cid := req.customerId.value;
      match FindCustomer(t.customers, cid)
      case None => LedgerStep(Err(CustomerNotFound), t)
      case Some(k) =>
        var c := t.customers[k];
        var active := ActiveCount(t.rentals, cid);
        if active >= c.maxRentals then LedgerStep(Err(RentalLimitReached(active, c.maxRentals)), t)
        else
          var price, days := req.dailyPrice.value, req.rentalDays.value;
          var r := Rental(NextId(RentalIds(t.rentals)), cid, c.name, req.recordId.value, req.recordTitle.value,
                          today, today + days, None, price, days, price * days, Active, 0);
          LedgerStep(Ok(r), Tables(t.customers[k := c.(activeRentals := c.activeRentals + 1)], t.rentals + [r]))
  }

  /**
   * Creation rejects a request with a missing field (400), an unknown customer
   * (404) or a customer whose active rentals in the ledger already reach
   * `max_rentals` (400), and then changes neither table; it succeeds exactly
   * when all three checks pass. It then appends exactly one rental, with the
   * largest existing id plus one (1 for an empty ledger), active, without fee
   * or return date, due `rental_days` after today, costing
   * `daily_price * rental_days`, carrying the given title and price and the
   * customer's name; existing rentals stay as they were and only that
   * customer's counter changes, by one.
   */
  lemma CreateSpec(t: Tables, req: RentalRequest, today: int)
    ensures var s := Create(t, req, today);
      && (s.outcome.Err? ==> s.after == t)
      && (s.outcome.Err? && s.outcome.error.MissingField? <==> FirstMissing(req).Some?)
      && (s.outcome == Err(CustomerNotFound) <==>
            FirstMissing(req).None? && GetCustomer(t.customers, req.customerId.value).None?)
      && (s.outcome.Err? && s.outcome.error.RentalLimitReached? <==>
            && FirstMissing(req).None?
            && GetCustomer(t.customers, req.customerId.value).Some?
            && ActiveCount(t.rentals, req.customerId.value) >= GetCustomer(t.customers, req.customerId.value).value.maxRentals)
      && (s.outcome.Ok? <==>
            && FirstMissing(req).None?
            && GetCustomer(t.customers, req.customerId.value).Some?
            && ActiveCount(t.rentals, req.customerId.value) < GetCustomer(t.customers, req.customerId.value).value.maxRentals)
      && (s.outcome.Ok? ==>
            var r := s.outcome.value;
            var k := FindCustomer(t.customers, r.customerId).value;
            && s.after.rentals == t.rentals + [r]
            && (forall i :: 0 <= i < |t.rentals| ==> t.rentals[i].id < r.id)
            && (|t.rentals| == 0 ==> r.id == 1)
            && (|t.rentals| > 0 ==> exists i :: 0 <= i < |t.rentals| && t.rentals[i].id == r.id - 1)
            && r.customerId == req.customerId.value && r.recordId == req.recordId.value
            && r.recordTitle == req.recordTitle.value && r.dailyPrice == req.dailyPrice.value
            && r.rentalDays == req.rentalDays.value && r.customerName == t.customers[k].name
            && r.status == Active && r.lateFee == 0 && r.returnedAt == None
            && r.rentedAt == today && r.dueDate == today + r.rentalDays
            && r.totalCost == r.dailyPrice * r.rentalDays
            && |s.after.customers| == |t.customers|
            && s.after.customers[k] == t.customers[k].(activeRentals := t.customers[k].activeRentals + 1)
            && (forall i :: 0 <= i < |t.customers| && i != k ==> s.after.customers[i] == t.customers[i]))
  {
    CreateChecks(t, req, today);
    CreateAppends(t, req, today);
  }

  /** The three checks of creation, their answers, and success exactly when all pass. */
  lemma CreateChecks(t: Tables, req: RentalRequest, today: int)
    ensures var s := Create(t, req, today);
      (s.outcome.Err? ==> s.after == t)
      && (s.outcome.Err? && s.outcome.error.MissingField? <==> FirstMissing(req).Some?)
      && (s.outcome == Err(CustomerNotFound) <==>
            FirstMissing(req).None? && GetCustomer(t.customers, req.customerId.value).None?)
      && (s.outcome.Err? && s.outcome.error.RentalLimitReached? <==>
            && FirstMissing(req).None?
            && GetCustomer(t.customers, req.customerId.value).Some?
            && ActiveCount(t.rentals, req.customerId.value) >= GetCustomer(t.customers, req.customerId.value).value.maxRentals)
      && (s.outcome.Ok? <==>
            && FirstMissing(req).None?
            && GetCustomer(t.customers, req.customerId.value).Some?
            && ActiveCount(t.rentals, req.customerId.value) < GetCustomer(t.customers, req.customerId.value).value.maxRentals)
  {
  }

  /** The rental a successful creation appends and the counter it moves. */
  lemma CreateAppends(t: Tables, req: RentalRequest, today: int)
    ensures var s := Create(t, req, today);
      (s.outcome.Ok? ==>
            var r := s.outcome.value;
            var k := FindCustomer(t.customers, r.customerId).value;
            && s.after.rentals == t.rentals + [r]
            && (forall i :: 0 <= i < |t.rentals| ==> t.rentals[i].id < r.id)
            && (|t.rentals| == 0 ==> r.id == 1)
            && (|t.rentals| > 0 ==> exists i :: 0 <= i < |t.rentals| && t.rentals[i].id == r.id - 1)
            && r.customerId == req.customerId.value && r.recordId == req.recordId.value
            && r.recordTitle == req.recordTitle.value && r.dailyPrice == req.dailyPrice.value
            && r.rentalDays == req.rentalDays.value && r.customerName == t.customers[k].name
            && r.status == Active && r.lateFee == 0 && r.returnedAt == None
            && r.rentedAt == today && r.dueDate == today + r.rentalDays
            && r.totalCost == r.dailyPrice * r.rentalDays
            && |s.after.customers| == |t.customers|
            && s.after.customers[k] == t.customers[k].(activeRentals := t.customers[k].activeRentals + 1)
            && (forall i :: 0 <= i < |t.customers| && i != k ==> s.after.customers[i] == t.customers[i]))
  {
    NextIdOfRentals(t.rentals);
  }

  /** The next rental id is the largest id plus one, or 1 for an empty ledger. */
  lemma NextIdOfRentals(rentals: seq<Rental>)
    ensures var n := NextId(RentalIds(rentals));
      && (forall i :: 0 <= i < |rentals| ==> rentals[i].id < n)
      && (|rentals| == 0 ==> n == 1)
      && (|rentals| > 0 ==> exists i :: 0 <= i < |rentals| && rentals[i].id == n - 1)
  {
    var ids := RentalIds(rentals);
    if |rentals| > 0 {
      var j :| 0 <= j < |ids| && ids[j] == NextId(ids) - 1;
      assert rentals[j].id == NextId(ids) - 1;
    }
  }

  // ---------------------------------------------------------------- return

  /** `PUT /rentals/<id>/return`. */
  function Return(t: Tables, id: int, today: int): (s: LedgerStep)
  {
    match FindRental(t.rentals, id)
    case None => LedgerStep(Err(RentalNotFound), t)
    case Some(j) =>
      var r := t.rentals[j];
      if r.status == Returned then LedgerStep(Err(AlreadyReturned), t)
      else
        var back := r.(returnedAt := Some(today), status := Returned, lateFee := LateFee(r.dueDate, today, r.dailyPrice));
        var customers :=
          match FindCustomer(t.customers, r.customerId)
          case None => t.customers
          case Some(k) => t.customers[k := t.customers[k].(activeRentals := t.customers[k].activeRentals - 1)];
        LedgerStep(Ok(back), Tables(customers, t.rentals[j := back]))
  }

  /**
   * Return answers 404 for an unknown id and 400 for a rental already
   * returned, changing nothing. Otherwise it marks that rental returned today
   * with the late fee computed from its own due date and price, changes no
   * other rental, and lowers the owner's counter by one.
   */
  lemma ReturnSpec(t: Tables, id: int, today: int)
    ensures var s := Return(t, id, today);
      && (s.outcome.Err? ==> s.after == t)
      && (s.outcome == Err(RentalNotFound) <==> GetRental(t.rentals, id).None?)
      && (s.outcome == Err(AlreadyReturned) <==>
            GetRental(t.rentals, id).Some? && GetRental(t.rentals, id).value.status == Returned)
      && (s.outcome.Ok? <==> GetRental(t.rentals, id).Some? && GetRental(t.rentals, id).value.status == Active)
      && (s.outcome.Ok? ==>
            var j := FindRental(t.rentals, id).value;
            var r := t.rentals[j];
            && r.status == Active
            && s.outcome.value == r.(returnedAt := Some(today), status := Returned,
                                     lateFee := LateFee(r.dueDate, today, r.dailyPrice))
            && s.after.rentals == t.rentals[j := s.outcome.value]
            && |s.after.customers| == |t.customers|
            && (forall i :: 0 <= i < |t.customers| ==>
                  s.after.customers[i] ==
                    if FindCustomer(t.customers, r.customerId) == Some(i)
                    then t.customers[i].(activeRentals := t.customers[i].activeRentals - 1)
                    else t.customers[i]))
  {
  }

  /** The status of a rental only moves from active to returned; a returned rental stays returned. */
  lemma ReturnOnlyForward(t: Tables, id: int, today: int)
    ensures var after := Return(t, id, today).after.rentals;
      && |after| == |t.rentals|
      && (forall i :: 0 <= i < |t.rentals| && t.rentals[i].status == Returned ==> after[i] == t.rentals[i])
      && (forall i :: 0 <= i < |t.rentals| && after[i] != t.rentals[i] ==>
            t.rentals[i].status == Active && after[i].status == Returned && after[i].id == id)
  {
  }

  /** Returning on or before the due date costs no fee. */
  lemma ReturnOnTimeNoFee(t: Tables, id: int, today: int)
    requires GetRental(t.rentals, id).Some? && today <= GetRental(t.rentals, id).value.dueDate
    ensures Return(t, id, today).outcome.Ok? ==> Return(t, id, today).outcome.value.lateFee == 0
  {
  }

  /** Creating a rental of `n >= 0` days and returning it the same day closes that rental and charges no late fee. */
  lemma CreateThenReturnSameDay(t: Tables, req: RentalRequest, today: int)
    requires req.rentalDays.Some? && req.rentalDays.value >= 0
    requires Create(t, req, today).outcome.Ok?
    ensures var s := Create(t, req, today);
      var back := Return(s.after, s.outcome.value.id, today);
      && back.outcome.Ok? && back.outcome.value.lateFee == 0 && back.outcome.value.status == Returned
      && back.outcome.value.recordId == s.outcome.value.recordId
  {
    var s := Create(t, req, today);
    var r := s.outcome.value;
    var j := FindRental(s.after.rentals, r.id);
    assert s.after.rentals[|t.rentals|] == r;
    assert j.Some? && j.value == |t.rentals| by {
      forall i | 0 <= i < |t.rentals| ensures s.after.rentals[i].id != r.id {
        assert s.after.rentals[i] == t.rentals[i];
      }
    }
  }

  // ------------------------------------------------------------ invariants

  predicate UniqueCustomerIds(customers: seq<Customer>)
  {
    forall i, j :: 0 <= i < j < |customers| ==> customers[i].id != customers[j].id
  }

  predicate UniqueRentalIds(rentals: seq<Rental>)
  {
    forall i, j :: 0 <= i < j < |rentals| ==> rentals[i].id != rentals[j].id
  }

  /** Every stored `active_rentals` counter equals the number of that customer's active rentals. */
  predicate CountersMatch(t: Tables)
  {
    forall i :: 0 <= i < |t.customers| ==> t.customers[i].activeRentals == ActiveCount(t.rentals, t.customers[i].id)
  }

  /** Creation gives the new rental an id no other rental has, so unique ids stay unique. */
  lemma CreateKeepsIdsUnique(t: Tables, req: RentalRequest, today: int)
    requires UniqueRentalIds(t.rentals)
    ensures UniqueRentalIds(Create(t, req, today).after.rentals)
  {
    var s := Create(t, req, today);
    if s.outcome.Ok? {
      var rs := s.after.rentals;
      forall i, j | 0 <= i < j < |rs| ensures rs[i].id != rs[j].id {
        if j == |t.rentals| {
          assert rs[i] == t.rentals[i];
          assert RentalIds(t.rentals)[i] == t.rentals[i].id;
        }
      }
    }
  }

  /** Return changes no id, so unique ids stay unique. */
  lemma ReturnKeepsIdsUnique(t: Tables, id: int, today: int)
    requires UniqueRentalIds(t.rentals)
    ensures UniqueRentalIds(Return(t, id, today).after.rentals)
  {
  }

  /** Creation changes one customer's counter, never an id, so unique customer ids stay unique. */
  lemma CreateKeepsCustomerIds(t: Tables, req: RentalRequest, today: int)
    requires UniqueCustomerIds(t.customers)
    ensures UniqueCustomerIds(Create(t, req, today).after.customers)
  {
    CreateSpec(t, req, today);
    var c := Create(t, req, today).after.customers;
    forall i | 0 <= i < |t.customers| ensures c[i].id == t.customers[i].id {
    }
  }

  /** Return changes one customer's counter, never an id, so unique customer ids stay unique. */
  lemma ReturnKeepsCustomerIds(t: Tables, id: int, today: int)
    requires UniqueCustomerIds(t.customers)
    ensures UniqueCustomerIds(Return(t, id, today).after.customers)
  {
    ReturnSpec(t, id, today);
    var c := Return(t, id, today).after.customers;
    forall i | 0 <= i < |t.customers| ensures c[i].id == t.customers[i].id {
    }
  }

  /** Creation increments the owner's counter as it adds one active rental, so counters keep matching. */
  lemma CreateKeepsCounters(t: Tables, req: RentalRequest, today: int)
    requires UniqueCustomerIds(t.customers) && CountersMatch(t)
    ensures CountersMatch(Create(t, req, today).after)
  {
    var s := Create(t, req, today);
    if s.outcome.Ok? {
      var r := s.outcome.value;
      var k := FindCustomer(t.customers, r.customerId).value;
      forall i | 0 <= i < |t.customers|
        ensures s.after.customers[i].activeRentals == ActiveCount(s.after.rentals, s.after.customers[i].id)
      {
        var cid := t.customers[i].id;
        FilterSnoc(t.rentals, r, (x: Rental) => ActiveFor(x, cid));
      }
    }
  }

  /** Return decrements the owner's counter as one of its rentals stops being active, so counters keep matching. */
  lemma ReturnKeepsCounters(t: Tables, id: int, today: int)
    requires UniqueCustomerIds(t.customers) && CountersMatch(t)
    ensures CountersMatch(Return(t, id, today).after)
  {
    var s := Return(t, id, today);
    if s.outcome.Ok? {
      var j := FindRental(t.rentals, id).value;
      var r := t.rentals[j];
      forall i | 0 <= i < |t.customers|
        ensures s.after.customers[i].activeRentals == ActiveCount(s.after.rentals, s.after.customers[i].id)
      {
        var cid := t.customers[i].id;
        if cid == r.customerId {
          FilterUpdateDrop(t.rentals, j, s.outcome.value, (x: Rental) => ActiveFor(x, cid));
        } else {
          FilterUpdateSame(t.rentals, j, s.outcome.value, (x: Rental) => ActiveFor(x, cid));
        }
      }
    }
  }

  /** The rentals service's in-memory tables (`customers_db`, `rentals_db`). */
  class Ledger {
    var customers: seq<Customer>
    var rentals: seq<Rental>

    constructor (initialCustomers: seq<Customer>, initialRentals: seq<Rental>)
      ensures customers == initialCustomers && rentals == initialRentals
    {
      customers := initialCustomers;
      rentals := initialRentals;
    }

    function State(): Tables
      reads this
    {
      Tables(customers, rentals)
    }

    /** `create_rental`: validate, check the quota against the ledger, append, bump the customer's counter. */
    method CreateRental(req: RentalRequest, today: int) returns (r: Result<Rental, LedgerError>)
      modifies this
      ensures LedgerStep(r, State()) == Create(old(State()), req, today)
    {
      var missing := FirstMissing(req);
      if missing.Some? {
        return Err(MissingField(missing.value));
      }
      var cid := req.customerId.value;
      var k := FindCustomer(customers, cid);
      if k.None? {
        return Err(CustomerNotFound);
      }
      var customer := customers[k.value];
      var active := ActiveCount(rentals, cid);
      if active >= customer.maxRentals {
        return Err(RentalLimitReached(active, customer.maxRentals));
      }
      var newId := NextId(RentalIds(rentals));
      var price, days := req.dailyPrice.value, req.rentalDays.value;
      var rental := Rental(newId, cid, customer.name, req.recordId.value, req.recordTitle.value,
                           today, today + days, None, price, days, price * days, Active, 0);
      rentals := rentals + [rental];
      customers := customers[k.value := customer.(activeRentals := customer.activeRentals + 1)];
      r := Ok(rental);
    }

    /** `return_rental`: find the rental, refuse a second return, record date, status and fee, release the quota. */
    method ReturnRental(id: int, today: int) returns (r: Result<Rental, LedgerError>)
      modifies this
      ensures LedgerStep(r, State()) == Return(old(State()), id, today)
    {
      var j := FindRental(rentals, id);
      if j.None? {
        return Err(RentalNotFound);
      }
      var rental := rentals[j.value];
      if rental.status == Returned {
        return Err(AlreadyReturned);
      }
      var fee := LateFee(rental.dueDate, today, rental.dailyPrice);
      rental := rental.(returnedAt := Some(today), status := Returned, lateFee := fee);
      rentals := rentals[j.value := rental];
      var k := FindCustomer(customers, rental.customerId);
      if k.Some? {
        customers := customers[k.value := customers[k.value].(activeRentals := customers[k.value].activeRentals - 1)];
      }
      r := Ok(rental);
    }
  }
}
