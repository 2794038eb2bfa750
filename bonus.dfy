/** The once-per-game bonus: an optional multiplier and an optional additive
    amount, each chosen by the player from randomly generated options and
    applied to one later offer. The random draws and the player's choice are
    inputs. */
module Bonus {

  /** An option of the multiplier dialog: "*q" or "/q". */
  datatype MultiplierOption = Times(q: int) | Divide(q: int)

  /** An option of the additive dialog: "+v" or "-v". */
  datatype AdditiveOption = Plus(v: int) | Minus(v: int)

  const MultiplierOptionCount := 5
  const AdditiveOptionCount := 10

  /** The multiplier that an option sets. */
  function MultiplierOf(o: MultiplierOption): (m: real)
    requires 2 <= o.q <= 5
    ensures m != 1.0 && m > 0.0
    ensures o.Times? ==> m == o.q as real
    ensures o.Divide? ==> m * o.q as real == 1.0
  {
    match o
    case Times(q) => q as real
    case Divide(q) => 1.0 / q as real
  }

  /** The additive amount that an option sets. */
  function AdditiveOf(o: AdditiveOption): (a: int)
    requires 100 <= o.v <= 2000
    ensures a != 0
    ensures o.Plus? ==> a == o.v
    ensures o.Minus? ==> a == -o.v
  {
    match o
    case Plus(v) => v
    case Minus(v) => -v
  }

  /** The multipliers a manager can hold: 1 (nothing pending), q or 1/q for q in 2..5. */
  predicate IsMultiplierValue(m: real)
  {
    m in {1.0, 2.0, 3.0, 4.0, 5.0, 1.0 / 2.0, 1.0 / 3.0, 1.0 / 4.0, 1.0 / 5.0}
  }

  /** The additive amounts a manager can hold: 0 (nothing pending) or a non-zero
      multiple of 100 between -2000 and 2000. */
  predicate IsAdditiveValue(a: int)
  {
    -2000 <= a <= 2000 && a % 100 == 0
  }

  /** Offer after applying a multiplier and an additive amount: the value
      offer * multiplier + additive, truncated, but never below 1. */
  function BonusedOffer(offer: int, multiplier: real, additive: int): (r: int)
    ensures r >= 1
    ensures offer as real * multiplier + additive as real >= 1.0 ==>
      r as real <= offer as real * multiplier + additive as real < r as real + 1.0
    ensures offer >= 1 && multiplier == 1.0 && additive == 0 ==> r == offer
  {
    var modified := offer as real * multiplier + additive as real;
    if modified < 1.0 then 1 else modified.Floor
  }

  /** BonusedOffer in terms of the exact value it truncates. */
  lemma BonusedOfferOf(offer: int, multiplier: real, additive: int, exact: real)
    requires exact == offer as real * multiplier + additive as real
    ensures BonusedOffer(offer, multiplier, additive) == if exact < 1.0 then 1 else exact.Floor
  {
  }

  /** Builds the multiplier options from the draws: for each of the five,
      `qDraws[i]` is the draw in 0..3 (so q = draw + 2) and `timesDraws[i]`
      tells whether the operator draw chose "*". */
  method BuildMultiplierOptions(qDraws: seq<int>, timesDraws: seq<bool>) returns (options: seq<MultiplierOption>)
    requires |qDraws| == MultiplierOptionCount && |timesDraws| == MultiplierOptionCount
    requires forall i :: 0 <= i < |qDraws| ==> 0 <= qDraws[i] < 4
    ensures |options| == MultiplierOptionCount
    ensures forall i :: 0 <= i < |options| ==> 2 <= options[i].q <= 5
    ensures forall i :: 0 <= i < |options| ==> options[i].q == qDraws[i] + 2
    ensures forall i :: 0 <= i < |options| ==> (options[i].Times? <==> timesDraws[i])
  {
    options := [];
    for i := 0 to MultiplierOptionCount
      invariant |options| == i
      invariant forall k :: 0 <= k < i ==> options[k].q == qDraws[k] + 2
      invariant forall k :: 0 <= k < i ==> (options[k].Times? <==> timesDraws[k])
    {
      var q := qDraws[i] + 2;
      if timesDraws[i] {
        options := options + [Times(q)];
      } else {
        options := options + [Divide(q)];
      }
    }
  }

  /** Builds the additive options from the draws: for each of the ten,
      `vDraws[i]` is the draw in 0..19 (so v = 100 (draw + 1)) and
      `plusDraws[i]` tells whether the sign draw chose "+". */
  method BuildAdditiveOptions(vDraws: seq<int>, plusDraws: seq<bool>) returns (options: seq<AdditiveOption>)
    requires |vDraws| == AdditiveOptionCount && |plusDraws| == AdditiveOptionCount
    requires forall i :: 0 <= i < |vDraws| ==> 0 <= vDraws[i] < 20
    ensures |options| == AdditiveOptionCount
    ensures forall i :: 0 <= i < |options| ==> 100 <= options[i].v <= 2000 && options[i].v % 100 == 0
    ensures forall i :: 0 <= i < |options| ==> options[i].v == (vDraws[i] + 1) * 100
    ensures forall i :: 0 <= i < |options| ==> (options[i].Plus? <==> plusDraws[i])
  {
    options := [];
    for i := 0 to AdditiveOptionCount
      invariant |options| == i
      invariant forall k :: 0 <= k < i ==> options[k].v == (vDraws[k] + 1) * 100
      invariant forall k :: 0 <= k < i ==> (options[k].Plus? <==> plusDraws[k])
    {
      var v := (vDraws[i] + 1) * 100;
      if plusDraws[i] {
        options := options + [Plus(v)];
      } else {
        options := options + [Minus(v)];
      }
    }
  }

  /** A snapshot of a manager's fields. */
  datatype BonusState = BonusState(multiplierActive: bool, additiveActive: bool,
                                   multiplierUsed: bool, additiveUsed: bool,
                                   multiplier: real, additive: int)

  class BonusManager {
    var multiplierActive: bool
    var additiveActive: bool
    var multiplierUsed: bool
    var additiveUsed: bool
    var multiplier: real
    var additive: int

    /** A bonus is pending only after the player chose it, and holds one of
        the values the options can produce. */
    ghost predicate Valid()
      reads this
    {
      IsMultiplierValue(multiplier) && IsAdditiveValue(additive) &&
      (!multiplierUsed ==> multiplier == 1.0) &&
      (!additiveUsed ==> additive == 0)
    }

    /** A fresh manager; each eligibility flag is the outcome of its coin flip. */
    constructor (multiplierCoin: bool, additiveCoin: bool)
      ensures Valid()
      ensures multiplierActive == multiplierCoin && additiveActive == additiveCoin
      ensures !multiplierUsed && !additiveUsed
      ensures multiplier == 1.0 && additive == 0
      ensures !HasPendingBonus()
    {
      multiplierActive := multiplierCoin;
      additiveActive := additiveCoin;
      multiplierUsed := false;
      additiveUsed := false;
      multiplier := 1.0;
      additive := 0;
    }

    /** The current values of all fields. */
    function State(): BonusState
      reads this
    {
      BonusState(multiplierActive, additiveActive, multiplierUsed, additiveUsed, multiplier, additive)
    }

    /** Whether the multiplier dialog is still to be offered; while it is, no
        multiplier is pending. */
    predicate HasMultiplier(): (available: bool)
      reads this
      ensures available <==> multiplierActive && !multiplierUsed
      ensures Valid() && available ==> multiplier == 1.0
    {
      multiplierActive && !multiplierUsed
    }

    /** Whether the additive dialog is still to be offered; while it is, no
        additive amount is pending. */
    predicate HasAdditive(): (available: bool)
      reads this
      ensures available <==> additiveActive && !additiveUsed
      ensures Valid() && available ==> additive == 0
    {
      additiveActive && !additiveUsed
    }

    /** Whether a chosen bonus awaits an offer. A pending bonus was chosen by
        the player; with none pending, applying would leave every positive
        offer unchanged. */
    predicate HasPendingBonus(): (pending: bool)
      reads this
      ensures Valid() && pending ==> multiplierUsed || additiveUsed
      ensures Valid() && !pending ==> forall offer :: offer >= 1 ==> BonusedOffer(offer, multiplier, additive) == offer
    {
      multiplier != 1.0 || additive != 0
    }

    /** Offers the multiplier bonus if it is available and records the
        player's choice; otherwise changes nothing and presents no options. */
    method TriggerMultiplier(qDraws: seq<int>, timesDraws: seq<bool>, choice: nat)
      returns (options: seq<MultiplierOption>)
      requires Valid()
      requires |qDraws| == MultiplierOptionCount && |timesDraws| == MultiplierOptionCount
      requires forall i :: 0 <= i < |qDraws| ==> 0 <= qDraws[i] < 4
      requires choice < MultiplierOptionCount
      modifies this`multiplier, this`multiplierUsed
      ensures Valid()
      ensures !old(HasMultiplier()) ==> options == [] && multiplier == old(multiplier) && multiplierUsed == old(multiplierUsed)
      ensures old(HasMultiplier()) ==>
        |options| == MultiplierOptionCount &&
        (forall i :: 0 <= i < |options| ==> options[i].q == qDraws[i] + 2 && (options[i].Times? <==> timesDraws[i])) &&
        multiplier == MultiplierOf(options[choice]) && multiplierUsed &&
        !HasMultiplier() && HasPendingBonus()
    {
      if !HasMultiplier() {
        return [];
      }
      options := BuildMultiplierOptions(qDraws, timesDraws);
      var chosen := options[choice];
      if chosen.Times? {
        multiplier := chosen.q as real;
      } else {
        multiplier := 1.0 / chosen.q as real;
      }
      multiplierUsed := true;
    }

    /** Offers the additive bonus if it is available and records the player's
        choice; otherwise changes nothing and presents no options. */
    method TriggerAdditive(vDraws: seq<int>, plusDraws: seq<bool>, choice: nat)
      returns (options: seq<AdditiveOption>)
      requires Valid()
      requires |vDraws| == AdditiveOptionCount && |plusDraws| == AdditiveOptionCount
      requires forall i :: 0 <= i < |vDraws| ==> 0 <= vDraws[i] < 20
      requires choice < AdditiveOptionCount
      modifies this`additive, this`additiveUsed
      ensures Valid()
      ensures !old(HasAdditive()) ==> options == [] && additive == old(additive) && additiveUsed == old(additiveUsed)
      ensures old(HasAdditive()) ==>
        |options| == AdditiveOptionCount &&
        (forall i :: 0 <= i < |options| ==> options[i].v == (vDraws[i] + 1) * 100 && (options[i].Plus? <==> plusDraws[i])) &&
        additive == AdditiveOf(options[choice]) && additiveUsed &&
        !HasAdditive() && HasPendingBonus()
    {
      if !HasAdditive() {
        return [];
      }
      options := BuildAdditiveOptions(vDraws, plusDraws);
      var chosen := options[choice];
      if chosen.Plus? {
        additive := chosen.v;
      } else {
        additive := -chosen.v;
      }
      additiveUsed := true;
    }

    /** Applies the pending multiplier and additive amount to `offer`, clears
        them, and never returns less than 1. */
    method Apply(offer: int) returns (r: int)
      requires Valid()
      modifies this`multiplier, this`additive
      ensures Valid()
      ensures r >= 1
      ensures r == BonusedOffer(offer, old(multiplier), old(additive))
      ensures multiplier == 1.0 && additive == 0 && !HasPendingBonus()
    {
      ghost var exact := offer as real * multiplier + additive as real;
      var modified := offer as real;
      if multiplier != 1.0 {
        modified := modified * multiplier;
        multiplier := 1.0;
      }
      assert modified == offer as real * old(multiplier);
      if additive != 0 {
        modified := modified + additive as real;
        additive := 0;
      }
      assert modified == exact;
      BonusedOfferOf(offer, old(multiplier), old(additive), modified);
      if modified < 1.0 {
        return 1;
      }
      r := modified.Floor;
    }
  }

  // ---------------------------------------------------------------------------
  // Properties of the bonus arithmetic

  /** A larger offer never yields a smaller bonused offer (multipliers are positive). */
  lemma BonusedOfferMonotone(offer1: int, offer2: int, multiplier: real, additive: int)
    requires offer1 <= offer2
    requires multiplier > 0.0
    ensures BonusedOffer(offer1, multiplier, additive) <= BonusedOffer(offer2, multiplier, additive)
  {
    var x1 := offer1 as real * multiplier + additive as real;
    var x2 := offer2 as real * multiplier + additive as real;
    assert x1 <= x2 by {
      assert (offer2 - offer1) as real * multiplier >= 0.0;
    }
  }

  /** Dividing never raises a positive offer. */
  lemma DivideNeverRaises(offer: int, q: int)
    requires offer >= 1
    requires 2 <= q <= 5
    ensures BonusedOffer(offer, MultiplierOf(Divide(q)), 0) <= offer
  {
    var m := MultiplierOf(Divide(q));
    assert m <= 0.5 by {
      assert q == 2 || q == 3 || q == 4 || q == 5;
    }
    ScaleDown(offer as real, m);
    var x := offer as real * m + 0 as real;
    assert x <= offer as real;
  }

  /** Multiplying at least doubles a positive offer. */
  lemma TimesAtLeastDoubles(offer: int, q: int)
    requires offer >= 1
    requires 2 <= q <= 5
    ensures BonusedOffer(offer, MultiplierOf(Times(q)), 0) >= 2 * offer
  {
    var m := MultiplierOf(Times(q));
    ScaleUp(offer as real, m);
    var x := offer as real * m + 0 as real;
    assert (2 * offer) as real <= x;
  }

  lemma ScaleDown(x: real, m: real)
    requires x >= 0.0 && 0.0 < m <= 0.5
    ensures x * m <= x
  {
  }

  lemma ScaleUp(x: real, m: real)
    requires x >= 0.0 && m >= 2.0
    ensures x * m >= 2.0 * x
  {
  }
}
