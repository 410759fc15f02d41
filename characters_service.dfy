/**
 * The characters service of the survival server (desafio4/characters-service):
 * the registry of characters, its lookups, the survival-odds filter and the
 * registration of a new character.
 *
 * `characters_db` is a list the service appends to; here it is the field
 * `characters` of class `Registry`. The current date (`datetime.now()` as
 * `YYYY-MM-DD`) is a parameter, `today`.
 */
module CharactersService {
  import opened Common

  datatype Character = Character(
    id: int,
    name: string,
    title: string,
    health: int,
    hunger: int,
    sanity: int,
    specialAbility: string,
    survivalOdds: string,
    joinedAt: string)

  /** The body of `POST /characters`; a field absent from the JSON is None. */
  datatype CharacterRequest = CharacterRequest(
    name: Option<string>,
    title: Option<string>,
    health: Option<int>,
    hunger: Option<int>,
    sanity: Option<int>,
    specialAbility: Option<string>,
    survivalOdds: Option<string>,
    joinedAt: Option<string>)

  datatype RegistryError = MissingField(field: string) | CharacterNotFound | InvalidOdds

  function StatusCode(e: RegistryError): int
  {
    match e
    case CharacterNotFound => 404
    case _ => 400
  }

  // ---------------------------------------------------------------- lookups

  function FindCharacter(db: seq<Character>, id: int): (k: Option<nat>)
    ensures k.Some? ==> k.value < |db| && db[k.value].id == id
    ensures k.Some? ==> forall j :: 0 <= j < k.value ==> db[j].id != id
    ensures k.None? ==> forall j :: 0 <= j < |db| ==> db[j].id != id
  {
    FindFirst(db, (c: Character) => c.id == id)
  }

  /** `GET /characters/<id>`: the first character with that id, or a 404. */
  function GetCharacter(db: seq<Character>, id: int): (r: Result<Character, RegistryError>)
    ensures r.Err? <==> forall j :: 0 <= j < |db| ==> db[j].id != id
    ensures r.Err? ==> r.error == CharacterNotFound
    ensures r.Ok? ==> exists k :: 0 <= k < |db| && db[k] == r.value && r.value.id == id &&
                        forall j :: 0 <= j < k ==> db[j].id != id
  {
    match FindCharacter(db, id)
    case None => Err(CharacterNotFound)
    case Some(k) => Ok(db[k])
  }

  // ---------------------------------------------------------- odds filter

  /** `str.capitalize()` on ASCII: the first character upper-cased, the rest lower-cased. */
  function Capitalize(s: string): string
  {
    if |s| == 0 then s else [UpperChar(s[0])] + Lower(s[1..])
  }

  /** The values the odds filter accepts. */
  const ValidOdds: seq<string> := ["Slim", "Grim", "None"]

  /** The odds argument normalised by `capitalize`, or a 400 when it is not one of the accepted values. */
  function NormaliseOdds(odds: string): (r: Result<string, RegistryError>)
    ensures r.Ok? <==> Capitalize(odds) in ValidOdds
    ensures r.Ok? ==> r.value == Capitalize(odds)
    ensures r.Err? ==> r.error == InvalidOdds
  {
    var c := Capitalize(odds);
    if c in ValidOdds then Ok(c) else Err(InvalidOdds)
  }

  lemma UpperLowerChar(c: char)
    ensures UpperChar(LowerChar(c)) == UpperChar(c)
    ensures LowerChar(UpperChar(c)) == LowerChar(c)
  {
  }

  /** Capitalising looks only at the letters, not at their case. */
  lemma CapitalizeIgnoresCase(s: string)
    ensures Capitalize(Lower(s)) == Capitalize(s)
    ensures Lower(Capitalize(s)) == Lower(s)
  {
    if |s| > 0 {
      UpperLowerChar(s[0]);
      LowerIdempotent(s[1..]);
      assert Lower(s)[1..] == Lower(s[1..]);
      assert Lower(Capitalize(s)) == [LowerChar(s[0])] + Lower(s[1..]);
    }
  }

  /** The three accepted values and their lower-case spellings. */
  lemma OddsSpellings()
    ensures Lower("Slim") == "slim" && Lower("Grim") == "grim" && Lower("None") == "none"
    ensures Capitalize("slim") == "Slim" && Capitalize("grim") == "Grim" && Capitalize("none") == "None"
  {
    Spelling("Slim", "slim");
    Spelling("Grim", "grim");
    Spelling("None", "none");
  }

  /** A four-letter word written with a capital and written in lower case. */
  lemma Spelling(cap: string, low: string)
    requires |cap| == |low| == 4 && 'A' <= cap[0] <= 'Z' && low[0] == LowerChar(cap[0])
    requires forall i :: 1 <= i < 4 ==> 'a' <= cap[i] <= 'z' && low[i] == cap[i]
    ensures Lower(cap) == low && Capitalize(low) == cap
  {
    assert Lower(low[1..]) == low[1..] == cap[1..];
    assert UpperChar(low[0]) == cap[0];
  }

  /**
   * The filter accepts an argument exactly when, ignoring case, it is one of
   * `slim`, `grim` or `none`, and then it means the one accepted value with that spelling.
   */
  lemma NormaliseOddsExact(odds: string)
    ensures NormaliseOdds(odds).Ok? <==> Lower(odds) in ["slim", "grim", "none"]
    ensures NormaliseOdds(odds).Ok? ==> Lower(NormaliseOdds(odds).value) == Lower(odds)
  {
    var c, w := Capitalize(odds), Lower(odds);
    CapitalizeIgnoresCase(odds);
    OddsSpellings();
    assert c in ValidOdds <==> c == "Slim" || c == "Grim" || c == "None";
    assert w in ["slim", "grim", "none"] <==> w == "slim" || w == "grim" || w == "none";
    if c == "Slim" || c == "Grim" || c == "None" {
      assert Lower(c) == w;
    }
    if w == "slim" || w == "grim" || w == "none" {
      assert Capitalize(w) == c;
    }
  }

  /** `GET /characters/odds/<odds>`: the characters whose odds equal the normalised argument, in registry order. */
  function ByOdds(db: seq<Character>, odds: string): (r: Result<seq<Character>, RegistryError>)
    ensures r.Err? <==> NormaliseOdds(odds).Err?
    ensures r.Ok? ==> forall i :: 0 <= i < |r.value| ==> r.value[i] in db && r.value[i].survivalOdds == Capitalize(odds)
    ensures r.Ok? ==> forall i :: 0 <= i < |db| && db[i].survivalOdds == Capitalize(odds) ==> db[i] in r.value
  {
    match NormaliseOdds(odds)
    case Err(e) => Err(e)
    case Ok(o) => Ok(Filter(db, (c: Character) => c.survivalOdds == o))
  }

  /** The odds filter keeps registry order: it distributes over concatenation. */
  lemma ByOddsAppend(a: seq<Character>, b: seq<Character>, odds: string)
    requires NormaliseOdds(odds).Ok?
    ensures ByOdds(a + b, odds).value == ByOdds(a, odds).value + ByOdds(b, odds).value
  {
    FilterAppend(a, b, (c: Character) => c.survivalOdds == Capitalize(odds));
  }

  // -------------------------------------------------------------- addition

  /** The first required field absent from the request, in the order the service checks them. */
  function FirstMissing(req: CharacterRequest): Option<string>
  {
    if req.name.None? then Some("name")
    else if req.title.None? then Some("title")
    else if req.health.None? then Some("health")
    else if req.hunger.None? then Some("hunger")
    else if req.sanity.None? then Some("sanity")
    else if req.specialAbility.None? then Some("special_ability")
    else if req.survivalOdds.None? then Some("survival_odds")
    else None
  }

  function CharacterIds(db: seq<Character>): seq<int>
  {
    Ids(db, (c: Character) => c.id)
  }

  /** What `POST /characters` answers and the registry it leaves behind. */
  datatype Addition = Addition(outcome: Result<Character, RegistryError>, db: seq<Character>)

  /** `POST /characters`. */
  function Added(db: seq<Character>, req: CharacterRequest, today: string): Addition
  {
    match FirstMissing(req)
    case Some(f) => Addition(Err(MissingField(f)), db)
    case None =>
      var joined := match req.joinedAt case Some(d) => d case None => today;
      var c := Character(NextId(CharacterIds(db)), req.name.value, req.title.value, req.health.value,
                         req.hunger.value, req.sanity.value, req.specialAbility.value, req.survivalOdds.value, joined);
      Addition(Ok(c), db + [c])
  }

  /**
   * A request with a missing field is a 400 naming it, and the registry stays
   * as it was. Otherwise exactly one character is appended, with the largest
   * existing id plus one (1 in an empty registry), the request's fields, and
   * `joined_at` defaulting to today.
   */
  lemma AddedSpec(db: seq<Character>, req: CharacterRequest, today: string)
    ensures var a := Added(db, req, today);
      && (a.outcome.Err? <==> FirstMissing(req).Some?)
      && (a.outcome.Err? ==> a.outcome.error == MissingField(FirstMissing(req).value) && a.db == db)
      && (a.outcome.Ok? ==>
            var c := a.outcome.value;
            && a.db == db + [c]
            && (forall i :: 0 <= i < |db| ==> db[i].id < c.id)
            && (|db| == 0 ==> c.id == 1)
            && (|db| > 0 ==> exists i :: 0 <= i < |db| && db[i].id == c.id - 1)
            && Some(c.name) == req.name && Some(c.title) == req.title
            && Some(c.health) == req.health && Some(c.hunger) == req.hunger && Some(c.sanity) == req.sanity
            && Some(c.specialAbility) == req.specialAbility && Some(c.survivalOdds) == req.survivalOdds
            && c.joinedAt == (if req.joinedAt.Some? then req.joinedAt.value else today))
  {
    if FirstMissing(req).None? {
      var ids := CharacterIds(db);
      forall i | 0 <= i < |db| ensures db[i].id < NextId(ids) {
        assert ids[i] == db[i].id;
      }
      if |db| > 0 {
        var j :| 0 <= j < |ids| && ids[j] == NextId(ids) - 1;
        assert db[j].id == NextId(ids) - 1;
      }
    }
  }

  predicate UniqueIds(db: seq<Character>)
  {
    forall i, j :: 0 <= i < j < |db| ==> db[i].id != db[j].id
  }

  /** Registration never reuses an id, so unique ids stay unique. */
  lemma AddKeepsIdsUnique(db: seq<Character>, req: CharacterRequest, today: string)
    requires UniqueIds(db)
    ensures UniqueIds(Added(db, req, today).db)
  {
    AddedSpec(db, req, today);
  }

  /** A registered character can be looked up by its new id. */
  lemma AddThenGet(db: seq<Character>, req: CharacterRequest, today: string)
    requires Added(db, req, today).outcome.Ok?
    ensures var a := Added(db, req, today);
      GetCharacter(a.db, a.outcome.value.id) == Ok(a.outcome.value)
  {
    AddedSpec(db, req, today);
    var a := Added(db, req, today);
    var c := a.outcome.value;
    forall j | 0 <= j < |db| ensures a.db[j].id != c.id {
      assert a.db[j] == db[j];
    }
    assert a.db[|db|] == c;
  }

  /** The service's in-memory registry (`characters_db`). */
  class Registry {
    var characters: seq<Character>

    constructor (initial: seq<Character>)
      ensures characters == initial
    {
      characters := initial;
    }

    /** `add_character`: check the required fields, take the next id, append. */
    method AddCharacter(req: CharacterRequest, today: string) returns (r: Result<Character, RegistryError>)
      modifies this
      ensures Addition(r, characters) == Added(old(characters), req, today)
    {
      var missing := FirstMissing(req);
      if missing.Some? {
        return Err(MissingField(missing.value));
      }
      var newId := NextId(CharacterIds(characters));
      var joined := if req.joinedAt.Some? then req.joinedAt.value else today;
      var c := Character(newId, req.name.value, req.title.value, req.health.value,
                         req.hunger.value, req.sanity.value, req.specialAbility.value, req.survivalOdds.value, joined);
      characters := characters + [c];
      r := Ok(c);
    }
  }
}
