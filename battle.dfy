/**
 * The automatic Pokemon battle of the battle API (desafio3/api): the damage
 * rule and the turn loop of `POST /battle/start`.
 *
 * The two Pokemon come from a database lookup by id; here each is an
 * `Option<Pokemon>` argument, None when the row is absent. The loop works on
 * two mutable fighters (the `hp_atual` entries of the two dicts), swapping
 * which one attacks after every turn that does not end the battle; here they
 * are objects of class `Fighter` and the swap exchanges two references.
 */
module Battle {
  import opened Common

  datatype Side = One | Two

  function Opponent(s: Side): Side
  {
    if s == One then Two else One
  }

  datatype Pokemon = Pokemon(
    id: int,
    name: string,
    hp: int,
    attack: int,
    defense: int,
    spAttack: int,
    spDefense: int,
    speed: int)

  function Mon(s: Side, p1: Pokemon, p2: Pokemon): Pokemon
  {
    if s == One then p1 else p2
  }

  // ------------------------------------------------------------------ damage

  /** Python's `int(x / y)`: the quotient truncated toward zero. */
  function TruncDiv(a: int, b: int): (q: int)
    requires b != 0
    ensures var r := a - q * b; Abs(r) < Abs(b) && (r == 0 || (r < 0) == (a < 0))
    ensures a >= 0 && b > 0 ==> q == a / b
  {
    TruncDivFacts(a, b);
    if (a < 0) == (b < 0) then Abs(a) / Abs(b) else -(Abs(a) / Abs(b))
  }

  function Abs(a: int): nat { if a < 0 then -a else a }

  /** The quotient of the magnitudes, signed, leaves a remainder smaller than the divisor with the numerator's sign. */
  lemma TruncDivFacts(a: int, b: int)
    requires b != 0
    ensures var m := Abs(a) / Abs(b);
      var q := if (a < 0) == (b < 0) then m else -m;
      var r := a - q * b;
      Abs(r) < Abs(b) && (r == 0 || (r < 0) == (a < 0))
  {
    SignedRemainder(a, b, Abs(a) / Abs(b), Abs(a) % Abs(b));
  }

  /** Signing the quotient of the magnitudes by the signs of `a` and `b` keeps a remainder of the numerator's sign. */
  lemma SignedRemainder(a: int, b: int, m: int, s: int)
    requires b != 0 && Abs(a) == m * Abs(b) + s && 0 <= s < Abs(b)
    ensures var q := if (a < 0) == (b < 0) then m else -m;
      var r := a - q * b;
      Abs(r) < Abs(b) && (r == 0 || (r < 0) == (a < 0))
  {
    var q := if (a < 0) == (b < 0) then m else -m;
    if b > 0 {
      assert Abs(b) == b;
      assert (-m) * b == -(m * b);
    } else {
      assert Abs(b) == -b;
      assert m * (-b) == -(m * b);
      assert (-m) * b == m * (-b);
    }
  }

  /** The stronger of the two attack stats. */
  function AttackOf(p: Pokemon): int { Max(p.attack, p.spAttack) }

  /** The stronger of the two defence stats. */
  function DefenceOf(p: Pokemon): int { Max(p.defense, p.spDefense) }

  /**
   * `max(5, int((atk * 2) / (defe * 0.5)))`, that is `max(5, int(4 * atk / defe))`;
   * None when the defence is 0, where the division raises.
   */
  function Strike(atk: int, defe: int): (d: Option<int>)
    ensures d.None? <==> defe == 0
    ensures d.Some? ==> d.value >= 5
  {
    if defe == 0 then None else Some(Max(5, TruncDiv(4 * atk, defe)))
  }

  /** `calcular_dano`: the attacker's stronger attack against the defender's stronger defence. */
  function Damage(att: Pokemon, def: Pokemon): (d: Option<int>)
    ensures d.None? <==> DefenceOf(def) == 0
    ensures d.Some? ==> d.value >= 5
  {
    Strike(AttackOf(att), DefenceOf(def))
  }

  /** Only the two maxima matter: swapping a Pokemon's physical and special stats changes nothing. */
  lemma DamageUsesMaxima(att: Pokemon, def: Pokemon, att': Pokemon, def': Pokemon)
    requires AttackOf(att) == AttackOf(att') && DefenceOf(def) == DefenceOf(def')
    ensures Damage(att, def) == Damage(att', def')
  {
  }

  /** A stronger attack never does less damage. */
  lemma StrikeGrowsWithAttack(atk: int, atk': int, defe: int)
    requires 0 <= atk <= atk' && defe > 0
    ensures Strike(atk, defe).value <= Strike(atk', defe).value
  {
    DivMonotone(4 * atk, 4 * atk', defe);
  }

  /** A stronger defence never takes more damage. */
  lemma StrikeShrinksWithDefence(atk: int, defe: int, defe': int)
    requires atk >= 0 && 0 < defe <= defe'
    ensures Strike(atk, defe').value <= Strike(atk, defe).value
  {
    DivAntitone(4 * atk, defe, defe');
  }

  lemma MulMonotone(x: int, y: int, b: int)
    requires x <= y && b > 0
    ensures x * b <= y * b
  {
    assert y * b - x * b == (y - x) * b;
  }

  lemma DivMonotone(a: int, a': int, b: int)
    requires 0 <= a <= a' && b > 0
    ensures a / b <= a' / b
  {
    var q, q' := a / b, a' / b;
    if q > q' {
      assert (q' + 1) * b == q' * b + b;
      MulMonotone(q' + 1, q, b);
    }
  }

  lemma DivAntitone(a: int, b: int, b': int)
    requires a >= 0 && 0 < b <= b'
    ensures a / b' <= a / b
  {
    var q, q' := a / b, a / b';
    assert q' >= 0;
    if q' > q {
      assert (q + 1) * b == q * b + b;
      assert b * q' == q' * b && b' * q' == q' * b';
      MulMonotone(b, b', q');
      MulMonotone(q + 1, q', b);
    }
  }

  // ---------------------------------------------------------------- the fight

  /** One line of `log_batalha`: turn number, who hit whom, the damage and the defender's hp left of its maximum. */
  datatype Entry = Entry(turn: nat, attacker: Side, defender: Side, damage: int, hpLeft: int, hpMax: int)

  datatype Crash = NoWinner | ZeroDefence

  /**
   * The answer of `POST /battle/start`: a 404 when a Pokemon is missing, a
   * crash (an unbound `vencedor` when the loop never runs, or a division by
   * zero), or the finished battle.
   */
  datatype Outcome =
    | NotFound
    | Crashed(reason: Crash)
    | Finished(winner: Side, loser: Side, turns: nat, log: seq<Entry>)

  /** Pokemon 1 attacks first when it is at least as fast as Pokemon 2. */
  function First(p1: Pokemon, p2: Pokemon): (s: Side)
    ensures s == One <==> p1.speed >= p2.speed
  {
    if p1.speed >= p2.speed then One else Two
  }

  function HpOf(s: Side, hp1: int, hp2: int): int
  {
    if s == One then hp1 else hp2
  }

  /**
   * The rest of the battle from a state where `a` attacks next, the current
   * hp are `hp1` and `hp2`, `turn` turns are done and `log` is written.
   */
  function Fight(p1: Pokemon, p2: Pokemon, a: Side, hp1: int, hp2: int, turn: nat, log: seq<Entry>): Outcome
    requires hp1 > 0 && hp2 > 0
    decreases hp1 + hp2
  {
    var b := Opponent(a);
    match Damage(Mon(a, p1, p2), Mon(b, p1, p2))
    case None => Crashed(ZeroDefence)
    case Some(d) =>
      var left := Max(0, HpOf(b, hp1, hp2) - d);
      var log' := log + [Entry(turn + 1, a, b, d, left, Mon(b, p1, p2).hp)];
      if left <= 0 then Finished(a, b, turn + 1, log')
      else if a == One then Fight(p1, p2, b, hp1, left, turn + 1, log')
      else Fight(p1, p2, b, left, hp2, turn + 1, log')
  }

  /** `iniciar_batalha` from the two looked-up rows. */
  function Battle(p1: Option<Pokemon>, p2: Option<Pokemon>): Outcome
  {
    if p1.None? || p2.None? then NotFound
    else if p1.value.hp <= 0 || p2.value.hp <= 0 then Crashed(NoWinner)
    else Fight(p1.value, p2.value, First(p1.value, p2.value), p1.value.hp, p2.value.hp, 0, [])
  }

  // ------------------------------------------------------- facts about a battle

  /** Who attacks in the turn after `i` turns are done: the sides alternate, starting with `first`. */
  function AttackerAt(i: nat, first: Side): Side
  {
    if i % 2 == 0 then first else Opponent(first)
  }

  /** Entry `i` of a battle that `first` opened. */
  predicate EntryOk(e: Entry, i: nat, first: Side, p1: Pokemon, p2: Pokemon)
  {
    && e.turn == i + 1
    && e.attacker == AttackerAt(i, first)
    && e.defender == Opponent(e.attacker)
    && Damage(Mon(e.attacker, p1, p2), Mon(e.defender, p1, p2)) == Some(e.damage)
    && e.hpMax == Mon(e.defender, p1, p2).hp
    && 0 <= e.hpLeft <= e.hpMax
  }

  predicate LogOk(log: seq<Entry>, first: Side, p1: Pokemon, p2: Pokemon)
  {
    forall i :: 0 <= i < |log| ==> EntryOk(log[i], i, first, p1, p2)
  }

  /** A fought battle: whoever knocks the other out wins; every earlier blow left the defender standing. */
  predicate Decided(r: Outcome, start: nat, log: seq<Entry>, first: Side, p1: Pokemon, p2: Pokemon)
    requires r.Finished?
  {
    && r.turns == |r.log| > start
    && r.log[..start] == log
    && LogOk(r.log, first, p1, p2)
    && r.winner == r.log[|r.log| - 1].attacker
    && r.loser == r.log[|r.log| - 1].defender == Opponent(r.winner)
    && r.log[|r.log| - 1].hpLeft == 0
    && (forall i :: 0 <= i < |r.log| - 1 ==> r.log[i].hpLeft > 0)
  }

  lemma LogSnoc(log: seq<Entry>, e: Entry, first: Side, p1: Pokemon, p2: Pokemon)
    requires LogOk(log, first, p1, p2) && EntryOk(e, |log|, first, p1, p2)
    ensures LogOk(log + [e], first, p1, p2)
  {
    forall i | 0 <= i < |log| + 1 ensures EntryOk((log + [e])[i], i, first, p1, p2) {
      if i < |log| {
        assert (log + [e])[i] == log[i];
      }
    }
  }

  /** A blow that leaves its defender at 0 ends the battle, decided. */
  lemma DecidedHere(log: seq<Entry>, e: Entry, first: Side, p1: Pokemon, p2: Pokemon)
    requires LogOk(log + [e], first, p1, p2) && e.hpLeft == 0
    requires forall i :: 0 <= i < |log| ==> log[i].hpLeft > 0
    ensures Decided(Finished(e.attacker, e.defender, |log| + 1, log + [e]), |log|, log, first, p1, p2)
  {
    var log' := log + [e];
    assert log'[..|log|] == log;
    assert log'[|log'| - 1] == e;
    assert EntryOk(log'[|log|], |log|, first, p1, p2);
    forall i | 0 <= i < |log'| - 1 ensures log'[i].hpLeft > 0 {
      assert log'[i] == log[i];
    }
  }

  /** A battle decided after one more entry is decided after the shorter log as well. */
  lemma DecidedExtends(r: Outcome, log: seq<Entry>, e: Entry, first: Side, p1: Pokemon, p2: Pokemon)
    requires r.Finished? && Decided(r, |log| + 1, log + [e], first, p1, p2)
    ensures Decided(r, |log|, log, first, p1, p2)
  {
    assert r.log[..|log|] == r.log[..|log| + 1][..|log|];
    assert (log + [e])[..|log|] == log;
  }

  /** Appending a blow that leaves its defender standing keeps every defender standing. */
  lemma StandingSnoc(log: seq<Entry>, e: Entry)
    requires forall i :: 0 <= i < |log| ==> log[i].hpLeft > 0
    requires e.hpLeft > 0
    ensures forall i :: 0 <= i < |log + [e]| ==> (log + [e])[i].hpLeft > 0
  {
    forall i | 0 <= i < |log + [e]| ensures (log + [e])[i].hpLeft > 0 {
      if i < |log| {
        assert (log + [e])[i] == log[i];
      }
    }
  }

  /** A battle under way never answers 404, and crashes only on a zero defence. */
  lemma {:induction false} FightCrashes(p1: Pokemon, p2: Pokemon, a: Side, hp1: int, hp2: int, turn: nat, log: seq<Entry>)
    requires hp1 > 0 && hp2 > 0
    ensures var r := Fight(p1, p2, a, hp1, hp2, turn, log);
      && !r.NotFound?
      && (r.Crashed? ==> r.reason == ZeroDefence && (DefenceOf(p1) == 0 || DefenceOf(p2) == 0))
    decreases hp1 + hp2
  {
    var b := Opponent(a);
    var dd := Damage(Mon(a, p1, p2), Mon(b, p1, p2));
    if dd.Some? {
      var left := Max(0, HpOf(b, hp1, hp2) - dd.value);
      var log' := log + [Entry(turn + 1, a, b, dd.value, left, Mon(b, p1, p2).hp)];
      if left > 0 {
        if a == One {
          FightCrashes(p1, p2, b, hp1, left, turn + 1, log');
        } else {
          FightCrashes(p1, p2, b, left, hp2, turn + 1, log');
        }
      }
    }
  }

  /** The entry a blow writes is the entry the log expects at that turn, and the other side attacks next. */
  lemma NextEntry(p1: Pokemon, p2: Pokemon, first: Side, a: Side, hp1: int, hp2: int, turn: nat)
    requires 0 < hp1 <= p1.hp && 0 < hp2 <= p2.hp && a == AttackerAt(turn, first)
    requires Damage(Mon(a, p1, p2), Mon(Opponent(a), p1, p2)).Some?
    ensures var b := Opponent(a);
      var d := Damage(Mon(a, p1, p2), Mon(b, p1, p2)).value;
      && EntryOk(Entry(turn + 1, a, b, d, Max(0, HpOf(b, hp1, hp2) - d), Mon(b, p1, p2).hp), turn, first, p1, p2)
      && AttackerAt(turn + 1, first) == b
  {
  }

  /** Every state a battle passes through that ends in a knock-out leads to a decided fight. */
  lemma {:induction false} FightDecided(p1: Pokemon, p2: Pokemon, first: Side, a: Side, hp1: int, hp2: int, turn: nat, log: seq<Entry>)
    requires 0 < hp1 <= p1.hp && 0 < hp2 <= p2.hp
    requires |log| == turn && LogOk(log, first, p1, p2) && a == AttackerAt(turn, first)
    requires forall i :: 0 <= i < |log| ==> log[i].hpLeft > 0
    requires Fight(p1, p2, a, hp1, hp2, turn, log).Finished?
    ensures Decided(Fight(p1, p2, a, hp1, hp2, turn, log), turn, log, first, p1, p2)
    decreases hp1 + hp2
  {
    var b := Opponent(a);
    var d := Damage(Mon(a, p1, p2), Mon(b, p1, p2)).value;
    var left := Max(0, HpOf(b, hp1, hp2) - d);
    var e := Entry(turn + 1, a, b, d, left, Mon(b, p1, p2).hp);
    NextEntry(p1, p2, first, a, hp1, hp2, turn);
    LogSnoc(log, e, first, p1, p2);
    if left <= 0 {
      DecidedHere(log, e, first, p1, p2);
    } else {
      StandingSnoc(log, e);
      var r := Fight(p1, p2, a, hp1, hp2, turn, log);
      if a == One {
        assert r == Fight(p1, p2, b, hp1, left, turn + 1, log + [e]);
        FightDecided(p1, p2, first, b, hp1, left, turn + 1, log + [e]);
      } else {
        assert r == Fight(p1, p2, b, left, hp2, turn + 1, log + [e]);
        FightDecided(p1, p2, first, b, left, hp2, turn + 1, log + [e]);
      }
      DecidedExtends(r, log, e, first, p1, p2);
    }
  }

  /**
   * The whole request: a 404 exactly when a Pokemon is missing; a crash with
   * no winner exactly when a Pokemon starts without hp; a crash on a zero
   * defence only when some defence is zero; otherwise a decided fight that
   * the faster Pokemon opens, Pokemon 1 on a tie.
   */
  lemma BattleFacts(p1: Option<Pokemon>, p2: Option<Pokemon>)
    ensures var r := Battle(p1, p2);
      && (r.NotFound? <==> p1.None? || p2.None?)
      && (r == Crashed(NoWinner) <==> p1.Some? && p2.Some? && (p1.value.hp <= 0 || p2.value.hp <= 0))
      && (r == Crashed(ZeroDefence) ==> DefenceOf(p1.value) == 0 || DefenceOf(p2.value) == 0)
      && (r.Finished? ==>
            && Decided(r, 0, [], First(p1.value, p2.value), p1.value, p2.value)
            && (r.log[0].attacker == One <==> p1.value.speed >= p2.value.speed))
  {
    if p1.Some? && p2.Some? && p1.value.hp > 0 && p2.value.hp > 0 {
      var first := First(p1.value, p2.value);
      FightCrashes(p1.value, p2.value, first, p1.value.hp, p2.value.hp, 0, []);
      if Battle(p1, p2).Finished? {
        FightDecided(p1.value, p2.value, first, first, p1.value.hp, p2.value.hp, 0, []);
      }
    }
  }

  /** The blows a Pokemon with `hp` takes, `d` at a time, before it reaches 0. */
  function Hits(hp: int, d: int): (n: nat)
    requires d > 0
    ensures n >= 1
    ensures hp > 0 ==> (n - 1) * d < hp <= n * d
    decreases hp
  {
    if hp <= d then 1
    else
      var m := Hits(hp - d, d);
      assert (m + 1) * d == m * d + d && (m + 1 - 1) * d == m * d && (m - 1) * d == m * d - d;
      1 + m
  }

  /**
   * From a state where `a` attacks next, with both damages defined: `a` wins
   * exactly when it needs no more blows than its opponent, and the battle
   * lasts until the loser's last blow.
   */
  lemma {:induction false} FightByHits(p1: Pokemon, p2: Pokemon, a: Side, hp1: int, hp2: int, turn: nat, log: seq<Entry>)
    requires hp1 > 0 && hp2 > 0
    requires DefenceOf(p1) != 0 && DefenceOf(p2) != 0
    ensures var b := Opponent(a);
      var kA := Hits(HpOf(b, hp1, hp2), Damage(Mon(a, p1, p2), Mon(b, p1, p2)).value);
      var kB := Hits(HpOf(a, hp1, hp2), Damage(Mon(b, p1, p2), Mon(a, p1, p2)).value);
      var r := Fight(p1, p2, a, hp1, hp2, turn, log);
      && r.Finished?
      && (r.winner == a <==> kA <= kB)
      && r.turns == turn + (if kA <= kB then 2 * kA - 1 else 2 * kB)
    decreases hp1 + hp2
  {
    var b := Opponent(a);
    var d := Damage(Mon(a, p1, p2), Mon(b, p1, p2)).value;
    var left := Max(0, HpOf(b, hp1, hp2) - d);
    var log' := log + [Entry(turn + 1, a, b, d, left, Mon(b, p1, p2).hp)];
    if left > 0 {
      assert Opponent(b) == a;
      if a == One {
        FightByHits(p1, p2, b, hp1, left, turn + 1, log');
      } else {
        FightByHits(p1, p2, b, left, hp2, turn + 1, log');
      }
    }
  }

  /**
   * Between two Pokemon with hp and defence, the battle always ends, and the
   * blow counts decide it: the first attacker wins exactly when it needs no
   * more blows than the other, in `2k - 1` turns for its `k` blows; otherwise
   * the other wins in twice its own blow count.
   */
  lemma BattleByHits(p1: Pokemon, p2: Pokemon)
    requires p1.hp > 0 && p2.hp > 0 && DefenceOf(p1) != 0 && DefenceOf(p2) != 0
    ensures var f := First(p1, p2);
      var s := Opponent(f);
      var kF := Hits(Mon(s, p1, p2).hp, Damage(Mon(f, p1, p2), Mon(s, p1, p2)).value);
      var kS := Hits(Mon(f, p1, p2).hp, Damage(Mon(s, p1, p2), Mon(f, p1, p2)).value);
      var r := Battle(Some(p1), Some(p2));
      && r.Finished?
      && (r.winner == f <==> kF <= kS)
      && r.turns == (if kF <= kS then 2 * kF - 1 else 2 * kS)
  {
    var f := First(p1, p2);
    FightByHits(p1, p2, f, p1.hp, p2.hp, 0, []);
  }

  // ------------------------------------------------------------ the loop itself

  /** One side of the battle: its row and its current hp (`hp_atual`). */
  class Fighter {
    const side: Side
    const mon: Pokemon
    var hp: int

    constructor (side: Side, mon: Pokemon)
      ensures this.side == side && this.mon == mon && hp == mon.hp
    {
      this.side := side;
      this.mon := mon;
      hp := mon.hp;
    }
  }

  /**
   * `iniciar_batalha`: look up both Pokemon, let the faster one attack first,
   * then attack and swap until a defender reaches 0 hp.
   */
  method StartBattle(p1: Option<Pokemon>, p2: Option<Pokemon>) returns (result: Outcome)
    ensures result == Battle(p1, p2)
  {
    if p1.None? || p2.None? {
      return NotFound;
    }
    var f1 := new Fighter(One, p1.value);
    var f2 := new Fighter(Two, p2.value);
    var attacker, defender := f1, f2;
    if f1.mon.speed < f2.mon.speed {
      attacker, defender := f2, f1;
    }
    var turn: nat := 0;
    var log: seq<Entry> := [];
    var winner: Fighter? := null;
    var loser: Fighter? := null;
    while f1.hp > 0 && f2.hp > 0
      invariant (attacker == f1 && defender == f2) || (attacker == f2 && defender == f1)
      invariant winner == null
      invariant turn == 0 ==> f1.hp == p1.value.hp && f2.hp == p2.value.hp && attacker.side == First(p1.value, p2.value)
      invariant turn > 0 ==> f1.hp > 0 && f2.hp > 0
      invariant f1.hp > 0 && f2.hp > 0 ==>
        Fight(p1.value, p2.value, attacker.side, f1.hp, f2.hp, turn, log) == Battle(p1, p2)
      decreases f1.hp + f2.hp
    {
      turn := turn + 1;
      var d := Damage(attacker.mon, defender.mon);
      if d.None? {
        return Crashed(ZeroDefence);
      }
      defender.hp := Max(0, defender.hp - d.value);
      log := log + [Entry(turn, attacker.side, defender.side, d.value, defender.hp, defender.mon.hp)];
      if defender.hp <= 0 {
        winner, loser := attacker, defender;
        break;
      }
      attacker, defender := defender, attacker;
    }
    if winner == null {
      return Crashed(NoWinner);
    }
    result := Finished(winner.side, loser.side, turn, log);
  }
}
