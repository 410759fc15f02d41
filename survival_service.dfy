/**
 * The survival-stats service of the survival server
 * (desafio4/survival-service): the survival rating, the risk assessment and
 * the recommendations written for one character, the per-character stats
 * list and the server overview's survival-odds histogram.
 *
 * The number of days since a `joined_at` date (`calculate_days_survived`, a
 * date parse against the clock with 0 on a parse error) is an input,
 * `daysSince`.
 */
module SurvivalService {
  import opened Common
  import Characters = CharactersService

  // ---------------------------------------------------------------- rating

  datatype Rating = NoviceSurvivor | Survivor | ExperiencedSurvivor | VeteranOfTheConstant | MasterOfTheConstant

  function RatingLabel(r: Rating): string
  {
    match r
    case NoviceSurvivor => "Novice Survivor"
    case Survivor => "Survivor"
    case ExperiencedSurvivor => "Experienced Survivor"
    case VeteranOfTheConstant => "Veteran of The Constant"
    case MasterOfTheConstant => "Master of The Constant"
  }

  /** The position of a rating in the ladder, from novice (0) to master (4). */
  function Rank(r: Rating): nat
  {
    match r
    case NoviceSurvivor => 0
    case Survivor => 1
    case ExperiencedSurvivor => 2
    case VeteranOfTheConstant => 3
    case MasterOfTheConstant => 4
  }

  /** `calculate_survival_rating`. */
  function SurvivalRating(days: int): Rating
  {
    if days < 30 then NoviceSurvivor
    else if days < 100 then Survivor
    else if days < 200 then ExperiencedSurvivor
    else if days < 365 then VeteranOfTheConstant
    else MasterOfTheConstant
  }

  /** Surviving longer never lowers the rating. */
  lemma RatingMonotone(days1: int, days2: int)
    requires days1 <= days2
    ensures Rank(SurvivalRating(days1)) <= Rank(SurvivalRating(days2))
  {
  }

  /** Every rung of the ladder is reached, and the top one exactly from a year on. */
  lemma RatingLadder(days: int)
    ensures Rank(SurvivalRating(days)) == 0 <==> days < 30
    ensures Rank(SurvivalRating(days)) == 4 <==> days >= 365
    ensures RatingLabel(SurvivalRating(days)) == "Master of The Constant" <==> days >= 365
  {
  }

  // ------------------------------------------------------------------ risks

  datatype Risk = VeryLow | Low | Medium | High

  datatype Overall = Critical | Elevated | Moderate | Stable

  function RiskLabel(r: Risk): string
  {
    match r
    case VeryLow => "Very Low"
    case Low => "Low"
    case Medium => "Medium"
    case High => "High"
  }

  function OverallLabel(o: Overall): string
  {
    match o
    case Critical => "Critical"
    case Elevated => "Elevated"
    case Moderate => "Moderate"
    case Stable => "Stable"
  }

  /** The answer's `risk_assessment` dictionary. */
  datatype Risks = Risks(hunger: Risk, sanity: Risk, health: Risk, overall: Overall)

  /** One stat's risk: very low from `veryLowFrom` on, then low from 150, medium from 100, high below. */
  function Level(stat: int, veryLowFrom: int): Risk
  {
    if stat >= veryLowFrom then VeryLow
    else if stat >= 150 then Low
    else if stat >= 100 then Medium
    else High
  }

  /** `list.count`. */
  function Count(rs: seq<Risk>, r: Risk): nat
  {
    if |rs| == 0 then 0 else (if rs[0] == r then 1 else 0) + Count(rs[1..], r)
  }

  /** The overall risk from the values of the dictionary, in insertion order. */
  function OverallOf(values: seq<Risk>): Overall
  {
    if Count(values, High) >= 2 then Critical
    else if High in values then Elevated
    else if Count(values, Medium) >= 2 then Moderate
    else Stable
  }

  /** `assess_risks`. */
  function AssessRisks(health: int, hunger: int, sanity: int): Risks
  {
    var h := Level(hunger, 200);
    var s := Level(sanity, 200);
    var he := Level(health, 175);
    Risks(h, s, he, OverallOf([h, s, he]))
  }

  function Severity(r: Risk): nat
  {
    match r
    case VeryLow => 0
    case Low => 1
    case Medium => 2
    case High => 3
  }

  /** More of a stat never raises its risk. */
  lemma RiskMonotone(stat1: int, stat2: int, veryLowFrom: int)
    requires stat1 <= stat2 && veryLowFrom >= 150
    ensures Severity(Level(stat1, veryLowFrom)) >= Severity(Level(stat2, veryLowFrom))
  {
  }

  function Bit(b: bool): nat { if b then 1 else 0 }

  /**
   * The overall risk, read off the stats: critical when at least two stats
   * are below 100, elevated when exactly one is, moderate when none is and at
   * least two lie in 100 ..< 150, stable otherwise.
   */
  lemma OverallFromStats(health: int, hunger: int, sanity: int)
    ensures var o := AssessRisks(health, hunger, sanity).overall;
      var low := Bit(hunger < 100) + Bit(sanity < 100) + Bit(health < 100);
      var mid := Bit(100 <= hunger < 150) + Bit(100 <= sanity < 150) + Bit(100 <= health < 150);
      && (o == Critical <==> low >= 2)
      && (o == Elevated <==> low == 1)
      && (o == Moderate <==> low == 0 && mid >= 2)
      && (o == Stable <==> low == 0 && mid < 2)
  {
    var h, s, he := Level(hunger, 200), Level(sanity, 200), Level(health, 175);
    CountOfThree(h, s, he, High);
    CountOfThree(h, s, he, Medium);
  }

  lemma CountOfThree(a: Risk, b: Risk, c: Risk, r: Risk)
    ensures Count([a, b, c], r) == Bit(a == r) + Bit(b == r) + Bit(c == r)
    ensures r in [a, b, c] <==> Count([a, b, c], r) > 0
  {
    CountCons(c, [], r);
    CountCons(b, [c], r);
    CountCons(a, [b, c], r);
    assert [c] + [] == [c] && [b] + [c] == [b, c] && [a] + [b, c] == [a, b, c];
  }

  lemma CountCons(x: Risk, rest: seq<Risk>, r: Risk)
    ensures Count([x] + rest, r) == Bit(x == r) + Count(rest, r)
  {
    assert ([x] + rest)[1..] == rest;
  }

  // -------------------------------------------------------- recommendations

  /** The entries `generate_recommendations` can write; `Text` gives each one's wording, typos included. */
  datatype Advice =
    | LongExpeditions | GoodHunger | GatherFood
    | ShadowFarming | DecentSanity | CraftSanityItems
    | CombatReady | StandardHealth | CraftHealing
    | SeekLightning | CookGourmet | AvoidDragonflyFire | CraftBattleHelms
    | GoodCondition | FocusOnSurvival

  function Text(a: Advice): string
  {
    match a
    case LongExpeditions => "Hight hunger, can sustain long expeditions"
    case GoodHunger => "Good hunger management"
    case GatherFood => "Prioritize food gathering and cooking"
    case ShadowFarming => "Hight sanity, safe for shadow creature farming"
    case DecentSanity => "Decent sanity reserves"
    case CraftSanityItems => "Craft Sanity-restoring items (Jerky, Cooked Green Cap, Taffy)"
    case CombatReady => "High health pool - excellent for combat"
    case StandardHealth => "Standard health capacity"
    case CraftHealing => "Craft Healing Salves or Honey Poultice"
    case SeekLightning => "Is Seeking lightning strikes for stat upgrades"
    case CookGourmet => "Is cooking gourmet meals for powerful buffs"
    case AvoidDragonflyFire => "Is avoiding the fire damage from the Dragonfly"
    case CraftBattleHelms => "Is crafting battle helms and spears for combat agains The Dragonfly"
    case GoodCondition => "Character is in good condition for exploration"
    case FocusOnSurvival => "Focus on basic survival needs immediately"
  }

  predicate IsHungerAdvice(a: Advice) { a == LongExpeditions || a == GoodHunger || a == GatherFood }
  predicate IsSanityAdvice(a: Advice) { a == ShadowFarming || a == DecentSanity || a == CraftSanityItems }
  predicate IsHealthAdvice(a: Advice) { a == CombatReady || a == StandardHealth || a == CraftHealing }
  predicate IsNameAdvice(a: Advice) { a == SeekLightning || a == CookGourmet || a == AvoidDragonflyFire || a == CraftBattleHelms }
  predicate IsOverallAdvice(a: Advice) { a == GoodCondition || a == FocusOnSurvival }

  function HungerTip(hunger: int): seq<Advice>
  {
    if hunger >= 200 then [LongExpeditions]
    else if hunger >= 150 then [GoodHunger]
    else if hunger < 100 then [GatherFood]
    else []
  }

  function SanityTip(sanity: int): seq<Advice>
  {
    if sanity >= 200 then [ShadowFarming]
    else if sanity >= 150 then [DecentSanity]
    else if sanity < 120 then [CraftSanityItems]
    else []
  }

  function HealthTip(health: int): seq<Advice>
  {
    if health >= 175 then [CombatReady]
    else if health >= 150 then [StandardHealth]
    else if health < 100 then [CraftHealing]
    else []
  }

  /** The four name checks; they are separate `if`s, but a name matches at most one of them. */
  function NameTip(name: string): seq<Advice>
  {
    (if name == "WX-78" then [SeekLightning] else [])
    + (if name == "Warly" then [CookGourmet] else [])
    + (if name == "Wormwood" then [AvoidDragonflyFire] else [])
    + (if name == "Wigfrid" then [CraftBattleHelms] else [])
  }

  function OverallTip(o: Overall): seq<Advice>
  {
    if o == Stable then [GoodCondition]
    else if o == Critical then [FocusOnSurvival]
    else []
  }

  /** `generate_recommendations`: hunger, sanity, health, name and overall entries, in that order. */
  function Recommendations(c: Characters.Character, risks: Risks): seq<Advice>
  {
    HungerTip(c.hunger) + SanityTip(c.sanity) + HealthTip(c.health) + NameTip(c.name) + OverallTip(risks.overall)
  }

  /** The four character names are distinct, so at most one name entry is written. */
  lemma NameTipAtMostOne(name: string)
    ensures |NameTip(name)| <= 1
  {
    if name == "WX-78" {
      assert name[1] == 'X' != "Warly"[1];
    }
  }

  /** The group an entry belongs to, in the order the list is written: hunger, sanity, health, name, overall. */
  function Category(a: Advice): nat
  {
    if IsHungerAdvice(a) then 0
    else if IsSanityAdvice(a) then 1
    else if IsHealthAdvice(a) then 2
    else if IsNameAdvice(a) then 3
    else 4
  }

  /** Entries whose categories strictly increase along the list. */
  predicate Grouped(r: seq<Advice>)
  {
    forall i, j :: 0 <= i < j < |r| ==> Category(r[i]) < Category(r[j])
  }

  /** At most one entry, of category `k`. */
  predicate Part(p: seq<Advice>, k: nat)
  {
    |p| <= 1 && forall i :: 0 <= i < |p| ==> Category(p[i]) == k
  }

  /** All categories below `k`. */
  predicate Below(a: seq<Advice>, k: nat)
  {
    forall i :: 0 <= i < |a| ==> Category(a[i]) < k
  }

  lemma GroupedSnoc(a: seq<Advice>, p: seq<Advice>, k: nat)
    requires Grouped(a) && Below(a, k) && Part(p, k)
    ensures Grouped(a + p) && Below(a + p, k + 1) && |a + p| <= |a| + 1
  {
    forall i, j | 0 <= i < j < |a + p| ensures Category((a + p)[i]) < Category((a + p)[j]) {
      if j >= |a| {
        assert (a + p)[j] == p[j - |a|];
      }
    }
  }

  lemma NameTipPart(name: string)
    ensures Part(NameTip(name), 3)
  {
    NameTipAtMostOne(name);
  }

  lemma StatTipParts(c: Characters.Character)
    ensures Part(HungerTip(c.hunger), 0) && Part(SanityTip(c.sanity), 1) && Part(HealthTip(c.health), 2)
  {
  }

  /** Each of the five ladders writes at most one entry, of its own category. */
  lemma TipParts(c: Characters.Character, risks: Risks)
    ensures Part(HungerTip(c.hunger), 0) && Part(SanityTip(c.sanity), 1) && Part(HealthTip(c.health), 2)
    ensures Part(NameTip(c.name), 3) && Part(OverallTip(risks.overall), 4)
  {
    StatTipParts(c);
    NameTipPart(c.name);
  }

  /**
   * The list holds at most one entry of each category, in the order hunger,
   * sanity, health, name, overall, so at most five in all.
   */
  lemma RecommendationsShape(c: Characters.Character, risks: Risks)
    ensures Grouped(Recommendations(c, risks))
    ensures |Recommendations(c, risks)| <= 5
  {
    TipParts(c, risks);
    var h, s, he, n, o := HungerTip(c.hunger), SanityTip(c.sanity), HealthTip(c.health), NameTip(c.name), OverallTip(risks.overall);
    GroupedSnoc([], h, 0);
    assert [] + h == h;
    GroupedSnoc(h, s, 1);
    GroupedSnoc(h + s, he, 2);
    GroupedSnoc(h + s + he, n, 3);
    GroupedSnoc(h + s + he + n, o, 4);
  }

  /** The entries of category `k`, in list order. */
  function Of(r: seq<Advice>, k: nat): seq<Advice>
  {
    Filter(r, (x: Advice) => Category(x) == k)
  }

  lemma OfAppend(a: seq<Advice>, b: seq<Advice>, k: nat)
    ensures Of(a + b, k) == Of(a, k) + Of(b, k)
  {
    FilterAppend(a, b, (x: Advice) => Category(x) == k);
  }

  lemma PartOf(p: seq<Advice>, k: nat, j: nat)
    requires Part(p, k)
    ensures Of(p, j) == if k == j then p else []
  {
    if |p| == 1 {
      assert p[1..] == [];
    }
  }

  /** A list has no entry of category `k` exactly when its category-`k` part is empty. */
  lemma NoneOf(r: seq<Advice>, k: nat)
    ensures (forall i :: 0 <= i < |r| ==> Category(r[i]) != k) <==> Of(r, k) == []
  {
    if Of(r, k) != [] {
      assert Category(Of(r, k)[0]) == k;
    }
  }

  /**
   * Read by category, the list is exactly the five ladders: its hunger
   * entries are the hunger ladder's, its sanity entries the sanity ladder's,
   * and so on, and there is nothing else.
   */
  lemma RecommendationsByCategory(c: Characters.Character, risks: Risks, k: nat)
    ensures Of(Recommendations(c, risks), k) ==
      if k == 0 then HungerTip(c.hunger)
      else if k == 1 then SanityTip(c.sanity)
      else if k == 2 then HealthTip(c.health)
      else if k == 3 then NameTip(c.name)
      else if k == 4 then OverallTip(risks.overall)
      else []
  {
    TipParts(c, risks);
    FivePartsOf(HungerTip(c.hunger), SanityTip(c.sanity), HealthTip(c.health), NameTip(c.name), OverallTip(risks.overall), k);
  }

  /** Five parts of categories 0 to 4, concatenated, are read back part by part. */
  lemma FivePartsOf(h: seq<Advice>, s: seq<Advice>, he: seq<Advice>, n: seq<Advice>, o: seq<Advice>, k: nat)
    requires Part(h, 0) && Part(s, 1) && Part(he, 2) && Part(n, 3) && Part(o, 4)
    ensures Of(h + s + he + n + o, k) ==
      if k == 0 then h else if k == 1 then s else if k == 2 then he else if k == 3 then n else if k == 4 then o else []
  {
    OfAppend(h + s + he + n, o, k);
    OfAppend(h + s + he, n, k);
    OfAppend(h + s, he, k);
    OfAppend(h, s, k);
    PartOf(h, 0, k);
    PartOf(s, 1, k);
    PartOf(he, 2, k);
    PartOf(n, 3, k);
    PartOf(o, 4, k);
    var all := Of(h, k) + Of(s, k) + Of(he, k) + Of(n, k) + Of(o, k);
    assert Of(h + s + he + n + o, k) == all;
    if k == 0 {
      assert all == h + [] + [] + [] + [];
    } else if k == 1 {
      assert all == [] + s + [] + [] + [];
    } else if k == 2 {
      assert all == [] + [] + he + [] + [];
    } else if k == 3 {
      assert all == [] + [] + [] + n + [];
    } else if k == 4 {
      assert all == [] + [] + [] + [] + o;
    } else {
      assert all == [] + [] + [] + [] + [];
    }
  }

  lemma HungerGap(c: Characters.Character, risks: Risks)
    ensures var r := Recommendations(c, risks);
      (forall i :: 0 <= i < |r| ==> !IsHungerAdvice(r[i])) <==> 100 <= c.hunger < 150
  {
    RecommendationsByCategory(c, risks, 0);
    HungerGapOf(Recommendations(c, risks), c.hunger);
  }

  lemma HungerGapOf(r: seq<Advice>, v: int)
    requires Of(r, 0) == HungerTip(v)
    ensures (forall i :: 0 <= i < |r| ==> !IsHungerAdvice(r[i])) <==> 100 <= v < 150
  {
    NoneOf(r, 0);
    forall i | 0 <= i < |r| ensures IsHungerAdvice(r[i]) <==> Category(r[i]) == 0 {
    }
  }

  lemma SanityGap(c: Characters.Character, risks: Risks)
    ensures var r := Recommendations(c, risks);
      (forall i :: 0 <= i < |r| ==> !IsSanityAdvice(r[i])) <==> 120 <= c.sanity < 150
  {
    RecommendationsByCategory(c, risks, 1);
    SanityGapOf(Recommendations(c, risks), c.sanity);
  }

  lemma SanityGapOf(r: seq<Advice>, v: int)
    requires Of(r, 1) == SanityTip(v)
    ensures (forall i :: 0 <= i < |r| ==> !IsSanityAdvice(r[i])) <==> 120 <= v < 150
  {
    NoneOf(r, 1);
    forall i | 0 <= i < |r| ensures IsSanityAdvice(r[i]) <==> Category(r[i]) == 1 {
    }
  }

  lemma HealthGap(c: Characters.Character, risks: Risks)
    ensures var r := Recommendations(c, risks);
      (forall i :: 0 <= i < |r| ==> !IsHealthAdvice(r[i])) <==> 100 <= c.health < 150
  {
    RecommendationsByCategory(c, risks, 2);
    HealthGapOf(Recommendations(c, risks), c.health);
  }

  lemma HealthGapOf(r: seq<Advice>, v: int)
    requires Of(r, 2) == HealthTip(v)
    ensures (forall i :: 0 <= i < |r| ==> !IsHealthAdvice(r[i])) <==> 100 <= v < 150
  {
    NoneOf(r, 2);
    forall i | 0 <= i < |r| ensures IsHealthAdvice(r[i]) <==> Category(r[i]) == 2 {
    }
  }

  /**
   * The gaps of the ladders: no hunger entry exactly for 100 ..< 150, no
   * sanity entry exactly for 120 ..< 150, no health entry exactly for 100 ..< 150.
   */
  lemma RecommendationGaps(c: Characters.Character, risks: Risks)
    ensures var r := Recommendations(c, risks);
      && ((forall i :: 0 <= i < |r| ==> !IsHungerAdvice(r[i])) <==> 100 <= c.hunger < 150)
      && ((forall i :: 0 <= i < |r| ==> !IsSanityAdvice(r[i])) <==> 120 <= c.sanity < 150)
      && ((forall i :: 0 <= i < |r| ==> !IsHealthAdvice(r[i])) <==> 100 <= c.health < 150)
  {
    HungerGap(c, risks);
    SanityGap(c, risks);
    HealthGap(c, risks);
  }

  /** Only a stable or a critical character gets an overall entry, and it is the one its risk names. */
  lemma OverallTipOnlyAtExtremes(c: Characters.Character, risks: Risks)
    ensures var r := Recommendations(c, risks);
      && (GoodCondition in r <==> risks.overall == Stable)
      && (FocusOnSurvival in r <==> risks.overall == Critical)
      && ((exists i :: 0 <= i < |r| && IsOverallAdvice(r[i])) <==> risks.overall == Stable || risks.overall == Critical)
  {
    RecommendationsByCategory(c, risks, 4);
    OverallEntries(Recommendations(c, risks), risks.overall);
  }

  /** Any list whose overall part is the overall ladder's entry has the overall entries of that ladder and no others. */
  lemma OverallEntries(r: seq<Advice>, o: Overall)
    requires Of(r, 4) == OverallTip(o)
    ensures GoodCondition in r <==> o == Stable
    ensures FocusOnSurvival in r <==> o == Critical
    ensures (exists i :: 0 <= i < |r| && IsOverallAdvice(r[i])) <==> o == Stable || o == Critical
  {
    InOf(r, 4, GoodCondition);
    InOf(r, 4, FocusOnSurvival);
    AnyOverall(r);
  }

  /** A list has an overall entry exactly when its overall part is not empty. */
  lemma AnyOverall(r: seq<Advice>)
    ensures (exists i :: 0 <= i < |r| && IsOverallAdvice(r[i])) <==> Of(r, 4) != []
  {
    NoneOf(r, 4);
    forall i | 0 <= i < |r| ensures IsOverallAdvice(r[i]) <==> Category(r[i]) == 4 {
      OverallCategory(r[i]);
    }
  }

  lemma OverallCategory(a: Advice)
    ensures IsOverallAdvice(a) <==> Category(a) == 4
  {
  }

  /** An entry of category `k` is in a list exactly when it is in the list's category-`k` part. */
  lemma InOf(r: seq<Advice>, k: nat, a: Advice)
    requires Category(a) == k
    ensures a in r <==> a in Of(r, k)
  {
    if a in r {
      var i :| 0 <= i < |r| && r[i] == a;
      assert r[i] in Of(r, k);
    }
  }

  // ------------------------------------------------------- per-character list

  /** One entry of `GET /survival-stats`. */
  datatype Stat = Stat(id: int, name: string, title: string, daysSurvived: int, rating: Rating)

  function StatOf(c: Characters.Character, daysSince: string -> int): Stat
  {
    var days := daysSince(c.joinedAt);
    Stat(c.id, c.name, c.title, days, SurvivalRating(days))
  }

  /** `list_survival_stats`: one entry per character, in the order received. */
  method SurvivalStats(chars: seq<Characters.Character>, daysSince: string -> int) returns (stats: seq<Stat>)
    ensures |stats| == |chars|
    ensures forall i :: 0 <= i < |chars| ==> stats[i] == StatOf(chars[i], daysSince)
    ensures forall i :: 0 <= i < |chars| ==> stats[i].id == chars[i].id && stats[i].rating == SurvivalRating(stats[i].daysSurvived)
  {
    stats := [];
    for i := 0 to |chars|
      invariant |stats| == i
      invariant forall j :: 0 <= j < i ==> stats[j] == StatOf(chars[j], daysSince)
    {
      var c := chars[i];
      var days := daysSince(c.joinedAt);
      var rating := SurvivalRating(days);
      stats := stats + [Stat(c.id, c.name, c.title, days, rating)];
    }
  }

  // --------------------------------------------------------- server overview

  /** `odds_distribution[odds] = odds_distribution.get(odds, 0) + 1`. */
  function Bump(m: map<string, nat>, k: string): map<string, nat>
  {
    m[k := if k in m then m[k] + 1 else 1]
  }

  /** The odds histogram of a list, built one character at a time from the front. */
  function Histogram(chars: seq<Characters.Character>): map<string, nat>
  {
    if |chars| == 0 then map[]
    else Bump(Histogram(chars[..|chars| - 1]), chars[|chars| - 1].survivalOdds)
  }

  function OddsCount(chars: seq<Characters.Character>, odds: string): nat
  {
    |Filter(chars, (c: Characters.Character) => c.survivalOdds == odds)|
  }

  /** The histogram has a key exactly for each odds value that occurs, counting its characters. */
  lemma {:induction false} HistogramCounts(chars: seq<Characters.Character>)
    ensures forall k :: k in Histogram(chars) <==> OddsCount(chars, k) > 0
    ensures forall k :: k in Histogram(chars) ==> Histogram(chars)[k] == OddsCount(chars, k)
  {
    if |chars| > 0 {
      var n := |chars| - 1;
      var init := chars[..n];
      HistogramCounts(init);
      assert chars == init + [chars[n]];
      forall k ensures OddsCount(chars, k) == OddsCount(init, k) + (if chars[n].survivalOdds == k then 1 else 0) {
        FilterSnoc(init, chars[n], (c: Characters.Character) => c.survivalOdds == k);
      }
    }
  }

  ghost function Pick(keys: set<string>): string
    requires keys != {}
  {
    var k :| k in keys; k
  }

  /** The sum of the histogram's counts over a set of its keys. */
  ghost function SumOver(m: map<string, nat>, keys: set<string>): nat
    requires keys <= m.Keys
    decreases keys
  {
    if keys == {} then 0 else var k := Pick(keys); m[k] + SumOver(m, keys - {k})
  }

  lemma {:induction false} SumOverRemove(m: map<string, nat>, keys: set<string>, k: string)
    requires keys <= m.Keys && k in keys
    ensures SumOver(m, keys) == m[k] + SumOver(m, keys - {k})
    decreases keys
  {
    var p := Pick(keys);
    if p != k {
      calc {
        SumOver(m, keys);
        m[p] + SumOver(m, keys - {p});
        { SumOverRemove(m, keys - {p}, k); }
        m[p] + m[k] + SumOver(m, keys - {p} - {k});
        { assert keys - {p} - {k} == keys - {k} - {p}; }
        m[k] + m[p] + SumOver(m, keys - {k} - {p});
        { SumOverRemove(m, keys - {k}, p); }
        m[k] + SumOver(m, keys - {k});
      }
    }
  }

  lemma {:induction false} SumOverAgree(m1: map<string, nat>, m2: map<string, nat>, keys: set<string>)
    requires keys <= m1.Keys && keys <= m2.Keys
    requires forall k :: k in keys ==> m1[k] == m2[k]
    ensures SumOver(m1, keys) == SumOver(m2, keys)
    decreases keys
  {
    if keys != {} {
      SumOverAgree(m1, m2, keys - {Pick(keys)});
    }
  }

  /** The total of a histogram. */
  ghost function Total(m: map<string, nat>): nat { SumOver(m, m.Keys) }

  /** Counting one more character raises the total by one. */
  lemma BumpTotal(m: map<string, nat>, k: string)
    ensures Total(Bump(m, k)) == Total(m) + 1
  {
    var b := Bump(m, k);
    SumOverRemove(b, b.Keys, k);
    if k in m {
      SumOverAgree(m, b, m.Keys - {k});
      SumOverRemove(m, m.Keys, k);
      assert b.Keys - {k} == m.Keys - {k};
    } else {
      SumOverAgree(m, b, m.Keys);
      assert b.Keys - {k} == m.Keys;
    }
  }

  /** The histogram's counts add up to the number of characters. */
  lemma {:induction false} HistogramTotal(chars: seq<Characters.Character>)
    ensures Total(Histogram(chars)) == |chars|
  {
    if |chars| == 0 {
      assert Histogram(chars).Keys == {};
    } else {
      var n := |chars| - 1;
      HistogramTotal(chars[..n]);
      BumpTotal(Histogram(chars[..n]), chars[n].survivalOdds);
    }
  }

  /** `sum(calculate_days_survived(c['joined_at']) for c in characters)`. */
  function TotalDays(chars: seq<Characters.Character>, daysSince: string -> int): int
  {
    if |chars| == 0 then 0 else daysSince(chars[0].joinedAt) + TotalDays(chars[1..], daysSince)
  }

  /** `GET /server-overview`: nothing for an empty server, else the count, the days and the odds histogram. */
  datatype Overview =
    | NoCharacters
    | Overview(totalCharacters: nat, totalDaysSurvived: int, oddsDistribution: map<string, nat>)

  /** `server_overview`: count the characters and build the odds histogram with a loop. */
  method ServerOverview(chars: seq<Characters.Character>, daysSince: string -> int) returns (o: Overview)
    ensures o == NoCharacters <==> |chars| == 0
    ensures o.Overview? ==>
      && o.totalCharacters == |chars|
      && o.totalDaysSurvived == TotalDays(chars, daysSince)
      && o.oddsDistribution == Histogram(chars)
  {
    if |chars| == 0 {
      return NoCharacters;
    }
    var dist: map<string, nat> := map[];
    for i := 0 to |chars|
      invariant dist == Histogram(chars[..i])
    {
      var odds := chars[i].survivalOdds;
      dist := dist[odds := (if odds in dist then dist[odds] else 0) + 1];
      assert chars[..i + 1][..i] == chars[..i];
    }
    assert chars[..|chars|] == chars;
    o := Overview(|chars|, TotalDays(chars, daysSince), dist);
  }
}
