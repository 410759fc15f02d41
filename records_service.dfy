/**
 * The records service of the rental shop (desafio5/records-service): the
 * catalogue of vinyl records and the per-record copy counters that the
 * gateway decrements on a rental and increments on a return.
 *
 * `records_db` is a list the service mutates in place; here it is the field
 * `records` of class `Catalog`. The effect of each mutating endpoint is given
 * by a function on the list (`Decreased`, `Increased`) and the methods are
 * proved to have exactly that effect.
 */
module RecordsService {
  import opened Common

  datatype Record = Record(
    id: int,
    title: string,
    artist: string,
    genre: string,
    dailyRentalPrice: int,   // cents
    totalCopies: int,
    availableCopies: int)

  datatype StockError = RecordNotFound | NoCopiesAvailable | AllCopiesAvailable

  /** HTTP status of each rejection: 404 for an unknown record, 400 for a bound violation. */
  function StatusCode(e: StockError): int
  {
    match e
    case RecordNotFound => 404
    case _ => 400
  }

  /** What a mutating endpoint answers and the catalogue it leaves behind. */
  datatype StockUpdate = StockUpdate(outcome: Result<int, StockError>, records: seq<Record>)

  predicate InStock(r: Record) { 0 <= r.availableCopies <= r.totalCopies }

  /** The bound the service enforces on every copy counter. */
  predicate AllInStock(records: seq<Record>)
  {
    forall i :: 0 <= i < |records| ==> InStock(records[i])
  }

  predicate UniqueIds(records: seq<Record>)
  {
    forall i, j :: 0 <= i < j < |records| ==> records[i].id != records[j].id
  }

  /** Position of the record `next(...)` finds for an id: the first one carrying it. */
  function FindRecord(records: seq<Record>, id: int): (k: Option<nat>)
    ensures k.Some? ==> k.value < |records| && records[k.value].id == id
    ensures k.Some? ==> forall j :: 0 <= j < k.value ==> records[j].id != id
    ensures k.None? ==> forall j :: 0 <= j < |records| ==> records[j].id != id
  {
    FindFirst(records, (r: Record) => r.id == id)
  }

  /** `GET /records/<id>`: the record, or None for a 404. */
  function GetRecord(records: seq<Record>, id: int): (r: Option<Record>)
    ensures r.Some? <==> exists j :: 0 <= j < |records| && records[j].id == id
    ensures r.Some? ==> r.value in records && r.value.id == id
  {
    match FindRecord(records, id)
    case None => None
    case Some(k) => Some(records[k])
  }

  /** Catalogues whose lookups agree: same length, same id at every position. */
  predicate SameIds(a: seq<Record>, b: seq<Record>)
  {
    |a| == |b| && forall i :: 0 <= i < |a| ==> a[i].id == b[i].id
  }

  lemma {:induction false} FindRecordSameIds(a: seq<Record>, b: seq<Record>, id: int)
    requires SameIds(a, b)
    ensures FindRecord(a, id) == FindRecord(b, id)
  {
    forall j | 0 <= j < |a| ensures (a[j].id == id) == (b[j].id == id) {
    }
  }

  predicate GenreMatches(r: Record, genre: string) { Lower(r.genre) == Lower(genre) }

  predicate IsAvailable(r: Record) { r.availableCopies > 0 }

  /** `GET /records/genre/<genre>`: the records of a genre, compared ignoring case, in catalogue order. */
  function ByGenre(records: seq<Record>, genre: string): (r: seq<Record>)
    ensures forall i :: 0 <= i < |r| ==> r[i] in records && GenreMatches(r[i], genre)
    ensures forall i :: 0 <= i < |records| && GenreMatches(records[i], genre) ==> records[i] in r
  {
    Filter(records, (x: Record) => GenreMatches(x, genre))
  }

  /** `GET /records/available`: the records with at least one copy on the shelf. */
  function Available(records: seq<Record>): (r: seq<Record>)
    ensures forall i :: 0 <= i < |r| ==> r[i] in records && r[i].availableCopies > 0
    ensures forall i :: 0 <= i < |records| && records[i].availableCopies > 0 ==> records[i] in r
  {
    Filter(records, IsAvailable)
  }

  /** The genre filter keeps catalogue order: it distributes over concatenation. */
  lemma ByGenreAppend(a: seq<Record>, b: seq<Record>, genre: string)
    ensures ByGenre(a + b, genre) == ByGenre(a, genre) + ByGenre(b, genre)
  {
    FilterAppend(a, b, (x: Record) => GenreMatches(x, genre));
  }

  /** The genre filter does not care about the case of its argument. */
  lemma ByGenreIgnoresCase(records: seq<Record>, genre: string)
    ensures ByGenre(records, genre) == ByGenre(records, Lower(genre))
  {
    LowerIdempotent(genre);
    FilterAgree(records, (x: Record) => GenreMatches(x, genre), (x: Record) => GenreMatches(x, Lower(genre)));
  }

  /** `PUT /records/<id>/decrease`: take one copy of the first record with that id off the shelf. */
  function Decreased(records: seq<Record>, id: int): (u: StockUpdate)
  {
    match FindRecord(records, id)
    case None => StockUpdate(Err(RecordNotFound), records)
    case Some(k) =>
      if records[k].availableCopies <= 0 then StockUpdate(Err(NoCopiesAvailable), records)
      else
        var n := records[k].availableCopies - 1;
        StockUpdate(Ok(n), records[k := records[k].(availableCopies := n)])
  }

  /** `PUT /records/<id>/increase`: put one copy of the first record with that id back on the shelf. */
  function Increased(records: seq<Record>, id: int): (u: StockUpdate)
  {
    match FindRecord(records, id)
    case None => StockUpdate(Err(RecordNotFound), records)
    case Some(k) =>
      if records[k].availableCopies >= records[k].totalCopies then StockUpdate(Err(AllCopiesAvailable), records)
      else
        var n := records[k].availableCopies + 1;
        StockUpdate(Ok(n), records[k := records[k].(availableCopies := n)])
  }

  /** A catalogue that differs from `old` at most in the copy counter of position `k`. */
  predicate OnlyCounterOf(old_: seq<Record>, new_: seq<Record>, k: nat)
  {
    && |new_| == |old_| && k < |old_|
    && new_[k] == old_[k].(availableCopies := new_[k].availableCopies)
    && forall i :: 0 <= i < |old_| && i != k ==> new_[i] == old_[i]
  }

  /**
   * Decrease: an unknown id answers 404 and an empty shelf 400, both leaving the
   * catalogue as it was; otherwise the counter of that record goes down by
   * exactly one, the new count is the answer, and nothing else changes.
   */
  lemma DecreasedSpec(records: seq<Record>, id: int)
    ensures var u := Decreased(records, id);
      && (u.outcome == Err(RecordNotFound) <==> GetRecord(records, id).None?)
      && (u.outcome == Err(NoCopiesAvailable) <==>
            GetRecord(records, id).Some? && GetRecord(records, id).value.availableCopies <= 0)
      && (u.outcome.Ok? <==> GetRecord(records, id).Some? && GetRecord(records, id).value.availableCopies > 0)
      && (u.outcome.Err? ==> u.records == records)
      && (u.outcome.Ok? ==>
            var k := FindRecord(records, id).value;
            && u.outcome.value == records[k].availableCopies - 1 >= 0
            && u.records[k].availableCopies == u.outcome.value
            && OnlyCounterOf(records, u.records, k))
  {
  }

  /**
   * Increase: an unknown id answers 404 and a full shelf 400, both leaving the
   * catalogue as it was; otherwise the counter goes up by exactly one.
   */
  lemma IncreasedSpec(records: seq<Record>, id: int)
    ensures var u := Increased(records, id);
      && (u.outcome == Err(RecordNotFound) <==> GetRecord(records, id).None?)
      && (u.outcome == Err(AllCopiesAvailable) <==>
            GetRecord(records, id).Some? &&
            GetRecord(records, id).value.availableCopies >= GetRecord(records, id).value.totalCopies)
      && (u.outcome.Ok? <==>
            GetRecord(records, id).Some? &&
            GetRecord(records, id).value.availableCopies < GetRecord(records, id).value.totalCopies)
      && (u.outcome.Err? ==> u.records == records)
      && (u.outcome.Ok? ==>
            var k := FindRecord(records, id).value;
            && u.outcome.value == records[k].availableCopies + 1 <= records[k].totalCopies
            && u.records[k].availableCopies == u.outcome.value
            && OnlyCounterOf(records, u.records, k))
  {
  }

  /** Both mutations keep every counter within `0 ..= total_copies` and never touch `total_copies` or an id. */
  lemma MutationsKeepBounds(records: seq<Record>, id: int)
    requires AllInStock(records)
    ensures AllInStock(Decreased(records, id).records) && AllInStock(Increased(records, id).records)
    ensures SameIds(records, Decreased(records, id).records) && SameIds(records, Increased(records, id).records)
    ensures forall i :: 0 <= i < |records| ==>
      && Decreased(records, id).records[i].totalCopies == records[i].totalCopies
      && Increased(records, id).records[i].totalCopies == records[i].totalCopies
  {
  }

  /** A successful decrease followed by an increase of the same record gives back the original catalogue. */
  lemma DecreaseThenIncrease(records: seq<Record>, id: int)
    requires AllInStock(records)
    requires Decreased(records, id).outcome.Ok?
    ensures var after := Decreased(records, id).records;
      Increased(after, id).outcome == Ok(GetRecord(records, id).value.availableCopies)
      && Increased(after, id).records == records
  {
    var k := FindRecord(records, id).value;
    var after := Decreased(records, id).records;
    FindRecordSameIds(records, after, id);
    assert after[k := after[k].(availableCopies := records[k].availableCopies)] == records;
  }

  /** The records service's in-memory catalogue (`records_db`). */
  class Catalog {
    var records: seq<Record>

    constructor (initial: seq<Record>)
      ensures records == initial
    {
      records := initial;
    }

    /** `decrease_copies`: find the record, check the shelf, decrement its counter in place. */
    method Decrease(id: int) returns (r: Result<int, StockError>)
      modifies this
      ensures StockUpdate(r, records) == Decreased(old(records), id)
    {
      var k := FindRecord(records, id);
      if k.None? {
        return Err(RecordNotFound);
      }
      var rec := records[k.value];
      if rec.availableCopies <= 0 {
        return Err(NoCopiesAvailable);
      }
      records := records[k.value := rec.(availableCopies := rec.availableCopies - 1)];
      r := Ok(records[k.value].availableCopies);
    }

    /** `increase_copies`: find the record, check it is not fully stocked, increment its counter in place. */
    method Increase(id: int) returns (r: Result<int, StockError>)
      modifies this
      ensures StockUpdate(r, records) == Increased(old(records), id)
    {
      var k := FindRecord(records, id);
      if k.None? {
        return Err(RecordNotFound);
      }
      var rec := records[k.value];
      if rec.availableCopies >= rec.totalCopies {
        return Err(AllCopiesAvailable);
      }
      records := records[k.value := rec.(availableCopies := rec.availableCopies + 1)];
      r := Ok(records[k.value].availableCopies);
    }
  }
}
