/** The game engine under the user interface: the 26 cases, the player's case,
    opening cases, the checkpoint every third opening (banker offer, swap
    proposal, one-time bonus), the swap itself and the sidebar of amounts.
    Buttons are represented by `disabled`, one flag per case; dialogs become
    return values; every random draw and every choice of the player is an
    input. */
module Game {
  import opened Banker
  import opened Bonus

  const NumCases := 26

  /** The amount at position `i` of the board, in sidebar order (positions
      past the end repeat the top amount). The table `VALUES` of main.go is
      written as a function of the position, and `Values` below is built from
      it: a fact about the board (every amount positive) then follows from
      this function's contract, which is much cheaper for the verifier than
      unfolding a 26-element sequence display inside the multiset reasoning
      about shuffles and swaps. */
  function Amount(i: int): (v: int)
    ensures v > 0
  {
    if i <= 0 then 1 else if i == 1 then 5 else if i == 2 then 10 else if i == 3 then 25
    else if i == 4 then 50 else if i == 5 then 75 else if i == 6 then 100 else if i == 7 then 200
    else if i == 8 then 300 else if i == 9 then 400 else if i == 10 then 500 else if i == 11 then 750
    else if i == 12 then 1000 else if i == 13 then 5000 else if i == 14 then 10000
    else if i == 15 then 12500 else if i == 16 then 25000 else if i == 17 then 50000
    else if i == 18 then 75000 else if i == 19 then 100000 else if i == 20 then 200000
    else if i == 21 then 300000 else if i == 22 then 400000 else if i == 23 then 500000
    else if i == 24 then 750000 else 1000000
  }

  /** The amounts on the board, in sidebar order. */
  const Values: seq<int> := seq(26, Amount)

  /** Names an item case may receive. */
  const ItemPool: seq<string> := [
    "Luxury Watch", "Smartphone", "Laptop", "Vacation Package", "TV", "Gaming Console",
    "Bicycle", "Headphones", "Gift Card", "Camera", "Jewelry", "Car Rental",
    "Concert Tickets", "Spa Voucher", "Restaurant Meal", "Fitness Tracker", "Drone", "Tablet"
  ]

  /** In `caseValues`, marks an item case; in `caseReplaced`, marks a case without item. */
  const NoValue := -1

  /** What the sidebar shows in place of an amount that an item displaced. */
  const ItemPriceSentinel := -999999

  const MaxItems := 3
  const CheckpointInterval := 3
  const BonusTriggerChance := 0.30

  /** What a case holds, as the dialogs report it. */
  datatype Content = Cash(amount: int) | Item(name: string)

  /** What follows an opening (the dialog the game shows next). */
  datatype Checkpoint =
    | NoCheckpoint                 // keep opening cases
    | FinalReveal(player: Content) // one unopened case besides the player's is left
    | NoOffer                      // a checkpoint with no amount in play: nothing is shown
    | SwapProposed                 // the banker proposes to swap cases
    | OfferPresented(amount: int)  // the banker's cash offer

  /** The outcome of a click on a case button. */
  datatype ClickResult =
    | Claimed                                  // the first click: the player's case
    | Rejected                                 // a click on the player's own case
    | Opened(content: Content, next: Checkpoint)

  /** One sidebar label: the amount (or the sentinel) and whether it carries the check mark. */
  datatype SidebarLabel = Label(shown: int, checked: bool)

  /** The random draws and the player's choices that one checkpoint may consume. */
  datatype Draws = Draws(
    bonusRoll: real,              // banker draw compared with 0.30
    swapRoll: real,               // banker draw compared with 0.20
    offerRoll: real,              // banker draw that sets the offer factor
    multiplierQs: seq<int>,       // five draws in 0..3
    multiplierTimes: seq<bool>,   // five operator draws, true for "*"
    multiplierChoice: nat,        // the option the player clicks
    additiveVs: seq<int>,         // ten draws in 0..19
    additivePlus: seq<bool>,      // ten sign draws, true for "+"
    additiveChoice: nat)          // the option the player clicks

  predicate IsUnitDraw(u: real)
  {
    0.0 <= u < 1.0
  }

  predicate ValidDraws(d: Draws)
  {
    IsUnitDraw(d.bonusRoll) && IsUnitDraw(d.swapRoll) && IsUnitDraw(d.offerRoll) &&
    |d.multiplierQs| == MultiplierOptionCount && |d.multiplierTimes| == MultiplierOptionCount &&
    (forall i :: 0 <= i < |d.multiplierQs| ==> 0 <= d.multiplierQs[i] < 4) &&
    d.multiplierChoice < MultiplierOptionCount &&
    |d.additiveVs| == AdditiveOptionCount && |d.additivePlus| == AdditiveOptionCount &&
    (forall i :: 0 <= i < |d.additiveVs| ==> 0 <= d.additiveVs[i] < 20) &&
    d.additiveChoice < AdditiveOptionCount
  }

  /** The multiplier the player ends up with when the multiplier dialog is shown. */
  function ChosenMultiplier(d: Draws): (m: real)
    requires ValidDraws(d)
    ensures IsMultiplierValue(m) && m != 1.0
  {
    var c := d.multiplierChoice;
    var q := d.multiplierQs[c] + 2;
    assert q == 2 || q == 3 || q == 4 || q == 5;
    MultiplierOf(if d.multiplierTimes[c] then Times(q) else Divide(q))
  }

  /** The additive amount the player ends up with when the additive dialog is shown. */
  function ChosenAdditive(d: Draws): (a: int)
    requires ValidDraws(d)
    ensures IsAdditiveValue(a) && a != 0
  {
    var c := d.additiveChoice;
    var v := (d.additiveVs[c] + 1) * 100;
    AdditiveOf(if d.additivePlus[c] then Plus(v) else Minus(v))
  }

  // ---------------------------------------------------------------------------
  // Specification functions over snapshots of the case arrays

  /** The amount each case stands for: the displaced amount of an item case,
      the case's own amount otherwise. */
  function Denominations(values: seq<int>, replaced: seq<int>): (ds: seq<int>)
    requires |values| == |replaced|
    ensures |ds| == |values|
    ensures forall i :: 0 <= i < |ds| ==> ds[i] == (if replaced[i] != NoValue then replaced[i] else values[i])
  {
    seq(|values|, i requires 0 <= i < |values| => if replaced[i] != NoValue then replaced[i] else values[i])
  }

  /** A case whose value is an item has a displaced amount and a name, and only such a case. */
  predicate CaseWellFormed(value: int, replaced: int, name: string)
  {
    (value == NoValue <==> replaced != NoValue) &&
    (value == NoValue <==> name != "")
  }

  /** The unopened cases other than the player's, among the first `n`. */
  function UnopenedBelow(disabled: seq<bool>, player: int, n: int): set<int>
    requires 0 <= n <= |disabled|
  {
    set i | 0 <= i < n && i != player && !disabled[i]
  }

  /** The amounts still in play, in case order: those of the player's case and
      of every enabled case, items excluded. */
  function RemainingValues(values: seq<int>, disabled: seq<bool>, player: int): (r: seq<int>)
    requires |values| == |disabled|
    ensures forall i :: 0 <= i < |values| && (i == player || !disabled[i]) && values[i] != NoValue ==> values[i] in r
    ensures forall v :: v in r ==> v != NoValue && exists i :: 0 <= i < |values| && (i == player || !disabled[i]) && values[i] == v
  {
    if values == [] then []
    else
      var n := |values| - 1;
      var init := RemainingValues(values[..n], disabled[..n], player);
      var last := if (n == player || !disabled[n]) && values[n] != NoValue then [values[n]] else [];
      assert forall i :: 0 <= i < n ==> values[..n][i] == values[i] && disabled[..n][i] == disabled[i];
      init + last
  }

  /** Extending the prefix by case `i` appends that case's amount when it is in play. */
  lemma RemainingValuesStep(values: seq<int>, disabled: seq<bool>, player: int, i: int)
    requires |values| == |disabled| && 0 <= i < |values|
    ensures RemainingValues(values[..i + 1], disabled[..i + 1], player) ==
      RemainingValues(values[..i], disabled[..i], player) +
      (if (i == player || !disabled[i]) && values[i] != NoValue then [values[i]] else [])
  {
    assert values[..i + 1][..i] == values[..i];
    assert disabled[..i + 1][..i] == disabled[..i];
  }

  /** The amounts that items displaced (the sidebar's "ITEM PRICE" entries). */
  function ReplacedSet(replaced: seq<int>): (s: set<int>)
    ensures forall i :: 0 <= i < |replaced| && replaced[i] != NoValue ==> replaced[i] in s
    ensures forall v :: v in s ==> v != NoValue && v in replaced
  {
    set i | 0 <= i < |replaced| && replaced[i] != NoValue :: replaced[i]
  }

  /** `s` with the entries at `i` and `j` exchanged. */
  function Swapped<T>(s: seq<T>, i: int, j: int): (r: seq<T>)
    requires 0 <= i < |s| && 0 <= j < |s|
    ensures |r| == |s| && r[i] == s[j] && r[j] == s[i]
    ensures forall k :: 0 <= k < |s| && k != i && k != j ==> r[k] == s[k]
  {
    s[i := s[j]][j := s[i]]
  }

  /** Exchanges the entries at `i` and `j` of `a` in place. */
  method SwapEntries<T>(a: array<T>, i: int, j: int)
    requires 0 <= i < a.Length && 0 <= j < a.Length
    modifies a
    ensures a[..] == Swapped(old(a[..]), i, j)
  {
    a[i], a[j] := a[j], a[i];
  }

  /** Exchanging two entries keeps the multiset of entries. */
  lemma SwappedMultiset<T>(s: seq<T>, i: int, j: int)
    requires 0 <= i < |s| && 0 <= j < |s|
    ensures multiset(Swapped(s, i, j)) == multiset(s)
  {
    if i != j {
      var t := s[i := s[j]];
      assert multiset(t) == multiset(s) - multiset{s[i]} + multiset{s[j]};
      assert multiset(t[j := s[i]]) == multiset(t) - multiset{t[j]} + multiset{s[i]};
    }
  }

  /** Exchanging the two cases' contents exchanges the amounts they stand for. */
  lemma SwappedDenominations(values: seq<int>, replaced: seq<int>, i: int, j: int)
    requires |values| == |replaced|
    requires 0 <= i < |values| && 0 <= j < |values|
    ensures Denominations(Swapped(values, i, j), Swapped(replaced, i, j)) == Swapped(Denominations(values, replaced), i, j)
  {
  }

  /** Exchanging two entries keeps the set of displaced amounts, hence the sidebar. */
  lemma SwappedReplacedSet(replaced: seq<int>, i: int, j: int)
    requires 0 <= i < |replaced| && 0 <= j < |replaced|
    ensures ReplacedSet(Swapped(replaced, i, j)) == ReplacedSet(replaced)
  {
    var r := Swapped(replaced, i, j);
    forall v | v in ReplacedSet(replaced) ensures v in ReplacedSet(r) {
      var k :| 0 <= k < |replaced| && replaced[k] == v;
      var k' := if k == i then j else if k == j then i else k;
      assert r[k'] == v;
    }
    forall v | v in ReplacedSet(r) ensures v in ReplacedSet(replaced) {
      var k :| 0 <= k < |r| && r[k] == v;
      var k' := if k == i then j else if k == j then i else k;
      assert replaced[k'] == v;
    }
  }

  lemma ValuesPositive()
    ensures forall v :: v in Values ==> v > 0
  {
  }

  lemma InMultiset<T>(s: seq<T>, v: T)
    requires v in multiset(s)
    ensures v in s
  {
  }

  /** A permutation of the amounts has 26 entries, all positive. */
  lemma ShuffledPositive(sh: seq<int>)
    requires multiset(sh) == multiset(Values)
    ensures |sh| == NumCases
    ensures forall i :: 0 <= i < |sh| ==> sh[i] > 0
  {
    assert |sh| == NumCases by {
      assert |multiset(sh)| == |multiset(Values)|;
    }
    ValuesPositive();
    forall i | 0 <= i < |sh| ensures sh[i] > 0 {
      assert sh[i] in multiset(sh);
      InMultiset(Values, sh[i]);
    }
  }

  /** What the constructor demands of its draws: a permutation of the amounts,
      at most three distinct item cases, none at index 0 or 25, and one name
      draw per item. */
  predicate ValidSetup(board: seq<int>, sh: seq<int>, items: seq<int>, nameDraws: seq<int>)
  {
    multiset(sh) == multiset(board) &&
    |items| <= MaxItems &&
    (forall k :: 0 <= k < |items| ==> 0 < items[k] < NumCases - 1) &&
    (forall k, l :: 0 <= k < l < |items| ==> items[k] != items[l]) &&
    |nameDraws| == |items| &&
    (forall k :: 0 <= k < |nameDraws| ==> 0 <= nameDraws[k] < |ItemPool|)
  }

  /** Item placement avoids case indices 0 and 25, not the smallest and largest
      amounts: a shuffle that puts the $1 amount in case 1 together with an item
      in case 1 is an admissible setup, and the item then displaces $1. */
  lemma {:induction false} SetupMayDisplaceSmallest()
    ensures var sh := Swapped(Values, 0, 1);
      ValidSetup(Values, sh, [1], [0]) && sh[1] == 1 && (forall v :: v in Values ==> 1 <= v)
  {
    SwappedMultiset(Values, 0, 1);
    ValuesPositive();
  }

  /** The dealing part of initialize: case `i` receives `sh[i]`; no case
      has a displaced amount or a name yet. */
  method DealCases(sh: seq<int>) returns (values: array<int>, replaced: array<int>, names: array<string>)
    requires |sh| == NumCases
    ensures fresh(values) && fresh(replaced) && fresh(names) && values != replaced
    ensures values.Length == NumCases && replaced.Length == NumCases && names.Length == NumCases
    ensures values[..] == sh
    ensures forall i :: 0 <= i < NumCases ==> replaced[i] == NoValue && names[i] == ""
  {
    values := new int[NumCases];
    for i := 0 to NumCases
      invariant forall k :: 0 <= k < i ==> values[k] == sh[k]
    {
      values[i] := sh[i % |sh|];
    }
    assert values[..] == sh;

    names := new string[NumCases](_ => "");
    replaced := new int[NumCases];
    for i := 0 to NumCases
      invariant forall k :: 0 <= k < i ==> replaced[k] == NoValue
      invariant values[..] == sh && forall k :: 0 <= k < NumCases ==> names[k] == ""
    {
      replaced[i] := NoValue;
    }
  }

  /** The item part of initialize: each case listed in `items` becomes an
      item named `ItemPool[nameDraws[k]]`, its amount moving to `replaced`. */
  method PlaceItems(values: array<int>, replaced: array<int>, names: array<string>,
                    sh: seq<int>, items: seq<int>, nameDraws: seq<int>)
    requires values.Length == NumCases && replaced.Length == NumCases && names.Length == NumCases
    requires values != replaced
    requires values[..] == sh && forall i :: 0 <= i < NumCases ==> sh[i] > 0
    requires forall i :: 0 <= i < NumCases ==> replaced[i] == NoValue && names[i] == ""
    requires forall k :: 0 <= k < |items| ==> 0 < items[k] < NumCases - 1
    requires forall k, l :: 0 <= k < l < |items| ==> items[k] != items[l]
    requires |nameDraws| == |items| && forall k :: 0 <= k < |nameDraws| ==> 0 <= nameDraws[k] < |ItemPool|
    modifies values, replaced, names
    ensures forall k :: 0 <= k < |items| ==>
      values[items[k]] == NoValue && replaced[items[k]] == sh[items[k]] && names[items[k]] == ItemPool[nameDraws[k]]
    ensures forall i :: 0 <= i < NumCases && i !in items ==>
      values[i] == sh[i] && replaced[i] == NoValue && names[i] == ""
    ensures multiset(values[..])[NoValue] == |items|
  {
    assert multiset(values[..])[NoValue] == 0;
    for k := 0 to |items|
      invariant forall l :: 0 <= l < k ==>
        values[items[l]] == NoValue && replaced[items[l]] == sh[items[l]] && names[items[l]] == ItemPool[nameDraws[l]]
      invariant forall i :: 0 <= i < NumCases && i !in items[..k] ==>
        values[i] == sh[i] && replaced[i] == NoValue && names[i] == ""
      invariant multiset(values[..])[NoValue] == k
    {
      var idx := items[k];
      assert idx !in items[..k];
      ghost var before := values[..];
      names[idx] := ItemPool[nameDraws[k]];
      replaced[idx] := values[idx];
      values[idx] := NoValue;
      assert values[..] == before[idx := NoValue];
      assert items[..k + 1] == items[..k] + [idx];
    }
    assert items[..|items|] == items;
  }

  /** After dealing a permutation of `board` and placing the items, the case
      contents are valid and each case stands for its shuffled amount. */
  lemma DealtCasesValid(values: seq<int>, replaced: seq<int>, names: seq<string>,
                        sh: seq<int>, items: seq<int>, nameDraws: seq<int>, board: seq<int>)
    requires |values| == NumCases && |replaced| == NumCases && |names| == NumCases && |sh| == NumCases
    requires |board| == NumCases && multiset(sh) == multiset(board) && forall v :: v in board ==> v > 0
    requires forall i :: 0 <= i < NumCases ==> sh[i] > 0
    requires |items| <= MaxItems && multiset(values)[NoValue] == |items|
    requires |nameDraws| == |items| && forall k :: 0 <= k < |nameDraws| ==> 0 <= nameDraws[k] < |ItemPool|
    requires forall k :: 0 <= k < |items| ==> 0 <= items[k] < NumCases
    requires forall k :: 0 <= k < |items| ==>
      values[items[k]] == NoValue && replaced[items[k]] == sh[items[k]] && names[items[k]] == ItemPool[nameDraws[k]]
    requires forall i :: 0 <= i < NumCases && i !in items ==>
      values[i] == sh[i] && replaced[i] == NoValue && names[i] == ""
    ensures CasesValid(values, replaced, names, board)
    ensures Denominations(values, replaced) == sh
  {
    forall i | 0 <= i < NumCases
      ensures CaseWellFormed(values[i], replaced[i], names[i])
    {
      if i in items {
        var k :| 0 <= k < |items| && items[k] == i;
        assert ItemPool[nameDraws[k]] != "";
      }
    }
    assert Denominations(values, replaced) == sh;
  }

  /** The case contents of a game dealt from `board`: every case is a
      well-formed item or amount case, the cases stand for every amount exactly
      once, and at most three of them hold items. */
  ghost predicate CasesValid(values: seq<int>, replaced: seq<int>, names: seq<string>, board: seq<int>)
  {
    |values| == NumCases && |replaced| == NumCases && |names| == NumCases &&
    (forall i :: 0 <= i < NumCases ==> CaseWellFormed(values[i], replaced[i], names[i])) &&
    |board| == NumCases &&
    multiset(Denominations(values, replaced)) == multiset(board) &&
    (forall v :: v in board ==> v > 0) &&
    multiset(values)[NoValue] <= MaxItems
  }

  /** The progress of a game: before the first click nothing is opened and
      every button is enabled; afterwards the player's case is disabled; only
      amounts of the board are recorded as opened. */
  ghost predicate ProgressValid(disabled: seq<bool>, playerCase: int, openedCasesCount: int, openedValues: set<int>, board: seq<int>)
  {
    |disabled| == NumCases &&
    (playerCase == -1 ==> openedCasesCount == 0 && forall i :: 0 <= i < NumCases ==> !disabled[i]) &&
    (playerCase != -1 ==> 0 <= playerCase < NumCases && disabled[playerCase]) &&
    openedCasesCount >= 0 &&
    (forall v :: v in openedValues ==> v in board)
  }

  /** Disabling an unopened case other than the player's removes it from the unopened set. */
  lemma UnopenedAfterOpening(disabled: seq<bool>, player: int, idx: int)
    requires 0 <= idx < |disabled| && idx != player
    ensures UnopenedBelow(disabled[idx := true], player, |disabled|) == UnopenedBelow(disabled, player, |disabled|) - {idx}
  {
  }

  /** Exchanging the contents of two cases keeps them valid. */
  lemma SwappedCasesValid(values: seq<int>, replaced: seq<int>, names: seq<string>, board: seq<int>, i: int, j: int)
    requires CasesValid(values, replaced, names, board)
    requires 0 <= i < NumCases && 0 <= j < NumCases
    ensures CasesValid(Swapped(values, i, j), Swapped(replaced, i, j), Swapped(names, i, j), board)
  {
    SwappedMultiset(values, i, j);
    SwappedDenominations(values, replaced, i, j);
    SwappedMultiset(Denominations(values, replaced), i, j);
  }

  /** Re-enabling the player's old case and disabling the new one moves the
      old case into the unopened set and the new one out of it. */
  lemma UnopenedAfterSwap(disabled: seq<bool>, oldPlayer: int, newPlayer: int)
    requires 0 <= oldPlayer < |disabled| && 0 <= newPlayer < |disabled|
    requires newPlayer != oldPlayer
    ensures UnopenedBelow(disabled[oldPlayer := false][newPlayer := true], newPlayer, |disabled|) ==
      UnopenedBelow(disabled, oldPlayer, |disabled|) - {newPlayer} + {oldPlayer}
  {
  }

  class Game {
    /** The board the game was dealt from (always `Values`). */
    const board: seq<int>
    var caseValues: array<int>
    var caseReplaced: array<int>
    var itemNames: array<string>
    var disabled: array<bool>
    var playerCase: int
    var openedCasesCount: int
    var openedValues: set<int>
    var bonus: BonusManager
    var bonusOffered: bool

    /** The game invariant. */
    ghost predicate Valid()
      reads this, caseValues, caseReplaced, itemNames, disabled, bonus
    {
      caseValues.Length == NumCases && caseReplaced.Length == NumCases &&
      itemNames.Length == NumCases && disabled.Length == NumCases &&
      caseValues != caseReplaced &&
      CasesValid(caseValues[..], caseReplaced[..], itemNames[..], board) &&
      ProgressValid(disabled[..], playerCase, openedCasesCount, openedValues, board) &&
      // a bonus is chosen only in the bonus sequence, which sets bonusOffered first
      bonus.Valid() &&
      (!bonusOffered ==> !bonus.multiplierUsed && !bonus.additiveUsed)
    }

    ghost function Denoms(): (ds: seq<int>)
      reads this`caseValues, this`caseReplaced, caseValues, caseReplaced
      requires caseValues.Length == caseReplaced.Length
      ensures |ds| == caseValues.Length
    {
      Denominations(caseValues[..], caseReplaced[..])
    }

    ghost function Unopened(): set<int>
      reads this`disabled, this`playerCase, disabled
    {
      UnopenedBelow(disabled[..], playerCase, disabled.Length)
    }

    ghost function Remaining(): seq<int>
      reads this`caseValues, this`disabled, this`playerCase, caseValues, disabled
      requires caseValues.Length == disabled.Length
    {
      RemainingValues(caseValues[..], disabled[..], playerCase)
    }

    ghost predicate AllDisabled()
      reads this, disabled
    {
      forall i :: 0 <= i < disabled.Length ==> disabled[i]
    }

    /** The content of case `i` (the final reveal and deal dialogs show it for the player's case). */
    function ContentOf(i: int): (c: Content)
      reads this, caseValues, caseReplaced, itemNames, disabled, bonus
      requires Valid() && 0 <= i < NumCases
      ensures c.Item? <==> caseValues[i] == NoValue
      ensures c.Item? ==> c.name != "" && caseReplaced[i] in board
      ensures c.Cash? ==> c.amount == Denoms()[i] && c.amount in board
    {
      DenominationInValues(i);
      if itemNames[i] != "" then Item(itemNames[i]) else Cash(caseValues[i])
    }

    lemma DenominationInValues(i: int)
      requires Valid() && 0 <= i < NumCases
      ensures Denoms()[i] in board
      ensures caseValues[i] != NoValue ==> caseValues[i] in board && caseValues[i] > 0
      ensures caseReplaced[i] != NoValue ==> caseReplaced[i] in board
    {
      assert Denoms()[i] in multiset(Denoms());
    }

    /** A new game (NewGame followed by initialize): the shuffled amounts are
        dealt to the cases in order, then each case listed in `items` is turned
        into an item named `ItemPool[nameDraws[k]]`, its amount moving to
        `caseReplaced`. The two coins decide the bonus eligibilities. */
    constructor (sh: seq<int>, items: seq<int>, nameDraws: seq<int>, multiplierCoin: bool, additiveCoin: bool)
      requires ValidSetup(Values, sh, items, nameDraws)
      ensures Valid()
      ensures board == Values
      ensures fresh(caseValues) && fresh(caseReplaced) && fresh(itemNames) && fresh(disabled) && fresh(bonus)
      ensures playerCase == -1 && openedCasesCount == 0 && openedValues == {} && !bonusOffered
      ensures forall i :: 0 <= i < NumCases ==> !disabled[i]
      ensures Denoms() == sh
      ensures forall k :: 0 <= k < |items| ==>
        caseValues[items[k]] == NoValue && caseReplaced[items[k]] == sh[items[k]] && itemNames[items[k]] == ItemPool[nameDraws[k]]
      ensures forall i :: 0 <= i < NumCases && i !in items ==>
        caseValues[i] == sh[i] && caseReplaced[i] == NoValue && itemNames[i] == ""
      ensures caseValues[0] != NoValue && caseValues[NumCases - 1] != NoValue
      ensures multiset(caseValues[..])[NoValue] == |items|
      ensures bonus.multiplierActive == multiplierCoin && bonus.additiveActive == additiveCoin
      ensures !bonus.multiplierUsed && !bonus.additiveUsed && !bonus.HasPendingBonus()
    {
      ShuffledPositive(sh);
      ValuesPositive();
      var values, replaced, names := DealCases(sh);
      PlaceItems(values, replaced, names, sh, items, nameDraws);
      DealtCasesValid(values[..], replaced[..], names[..], sh, items, nameDraws, Values);
      board := Values;
      caseValues := values;
      caseReplaced := replaced;
      itemNames := names;
      disabled := new bool[NumCases](_ => false);
      playerCase := -1;
      openedCasesCount := 0;
      openedValues := {};
      bonus := new BonusManager(multiplierCoin, additiveCoin);
      bonusOffered := false;
      new;
      assert Denoms() == sh;
    }

    /** A click on case `idx`. A disabled button cannot be clicked, so the
        case is enabled unless it is the player's own (whose rejection is
        kept). The first click claims the player's case; a click on it later is
        rejected; any other click opens the case and runs the checkpoint logic
        with the draws `d`. */
    method OnCaseClicked(idx: int, d: Draws) returns (result: ClickResult)
      requires Valid() && ValidDraws(d)
      requires 0 <= idx < NumCases
      requires idx == playerCase || !disabled[idx]
      modifies this`playerCase, this`openedCasesCount, this`openedValues, this`bonusOffered, disabled, bonus
      ensures Valid()
      // first click
      ensures old(playerCase) == -1 ==>
        result == Claimed && playerCase == idx &&
        disabled[..] == old(disabled[..])[idx := true] &&
        openedCasesCount == 0 && openedValues == old(openedValues) &&
        bonusOffered == old(bonusOffered) && unchanged(bonus)
      // a click on the player's own case
      ensures old(playerCase) != -1 && idx == old(playerCase) ==>
        result == Rejected && unchanged(this) && unchanged(disabled) && unchanged(bonus)
      // opening
      ensures old(playerCase) != -1 && idx != old(playerCase) ==> playerCase == old(playerCase)
      ensures old(playerCase) != -1 && idx != old(playerCase) ==>
        OpeningOutcome(result, idx, d, old(ContentOf(idx)), old(Denoms()[idx]), old(Unopened()), old(disabled[..]),
          old(openedCasesCount), old(openedValues), old(bonusOffered), old(bonus.State()))
    {
      if playerCase == -1 {
        playerCase := idx;
        disabled[idx] := true;
        return Claimed;
      }
      if idx == playerCase {
        return Rejected;
      }
      result := OpenCase(idx, d);
    }

    /** What opening case `idx` leads to, given the state before the click. */
    ghost predicate OpeningOutcome(result: ClickResult, idx: int, d: Draws, content: Content, denomination: int,
                                   unopened: set<int>, buttons: seq<bool>, count: int, marked: set<int>,
                                   offered: bool, bonusBefore: BonusState)
      reads this, caseValues, caseReplaced, itemNames, disabled, bonus
      requires Valid() && ValidDraws(d) && 0 <= idx < NumCases && |buttons| == NumCases
    {
      result.Opened? && result.content == content &&
      openedCasesCount == count + 1 &&
      openedValues == marked + {denomination} &&
      disabled[idx] &&
      (forall i :: 0 <= i < NumCases && buttons[i] ==> disabled[i]) &&
      (result.next.FinalReveal? <==> |unopened - {idx}| == 1) &&
      (result.next.FinalReveal? ==> playerCase != -1 && result.next.player == ContentOf(playerCase) && AllDisabled()) &&
      (!result.next.FinalReveal? ==> disabled[..] == buttons[idx := true]) &&
      (result.next == NoCheckpoint <==> openedCasesCount % CheckpointInterval != 0 && |unopened - {idx}| != 1) &&
      (result.next == NoCheckpoint ==> bonusOffered == offered && bonus.State() == bonusBefore) &&
      // off a checkpoint (a final reveal included) the bonus is not touched
      (openedCasesCount % CheckpointInterval != 0 ==> bonusOffered == offered && bonus.State() == bonusBefore) &&
      // the checkpoint sees the amounts in play once this case is disabled
      (openedCasesCount % CheckpointInterval == 0 ==>
        CheckpointOutcome(result.next, d, |unopened - {idx}|, RemainingValues(caseValues[..], buttons[idx := true], playerCase),
          offered, bonusBefore, bonusOffered, bonus.State())) &&
      (offered ==> bonusOffered && bonus.State() == bonusBefore)
    }

    /** Opens case `idx` (not the player's, still enabled): its button is
        disabled, the opening is counted, and once the content dialog closes
        the checkpoint logic runs. */
    method OpenCase(idx: int, d: Draws) returns (result: ClickResult)
      requires Valid() && ValidDraws(d) && playerCase != -1
      requires 0 <= idx < NumCases && idx != playerCase && !disabled[idx]
      modifies this`openedCasesCount, this`openedValues, this`bonusOffered, disabled, bonus
      ensures Valid()
      ensures OpeningOutcome(result, idx, d, old(ContentOf(idx)), old(Denoms()[idx]), old(Unopened()), old(disabled[..]),
        old(openedCasesCount), old(openedValues), old(bonusOffered), old(bonus.State()))
    {
      var content := ContentOf(idx);
      DisableOpened(idx);
      var next := CaseOpenedClosed(idx, d);
      result := Opened(content, next);
    }

    /** The first steps of an opening: the case's button is disabled and the
        opening is counted. */
    method DisableOpened(idx: int)
      requires Valid() && playerCase != -1
      requires 0 <= idx < NumCases && idx != playerCase && !disabled[idx]
      modifies this`openedCasesCount, disabled
      ensures Valid()
      ensures disabled[..] == old(disabled[..])[idx := true]
      ensures openedCasesCount == old(openedCasesCount) + 1
      ensures Unopened() == old(Unopened()) - {idx}
    {
      ghost var buttons := disabled[..];
      disabled[idx] := true;
      openedCasesCount := openedCasesCount + 1;
      assert disabled[..] == buttons[idx := true];
      UnopenedAfterOpening(buttons, playerCase, idx);
    }

    /** The on-closed callback of the content dialog: the opened amount is
        marked, then every third opening reaches the banker's checkpoint, and
        otherwise the final reveal comes when one other case is left. */
    method CaseOpenedClosed(idx: int, d: Draws) returns (next: Checkpoint)
      requires Valid() && ValidDraws(d) && playerCase != -1 && 0 <= idx < NumCases
      modifies this`openedValues, this`bonusOffered, disabled, bonus
      ensures Valid()
      ensures openedValues == old(openedValues) + {old(Denoms()[idx])}
      ensures next.FinalReveal? <==> |old(Unopened())| == 1
      ensures next.FinalReveal? ==> next.player == ContentOf(playerCase) && AllDisabled()
      ensures !next.FinalReveal? ==> disabled[..] == old(disabled[..])
      ensures next == NoCheckpoint <==> openedCasesCount % CheckpointInterval != 0 && |old(Unopened())| != 1
      ensures next == NoCheckpoint ==> bonusOffered == old(bonusOffered) && unchanged(bonus)
      ensures openedCasesCount % CheckpointInterval != 0 ==> bonusOffered == old(bonusOffered) && unchanged(bonus)
      ensures openedCasesCount % CheckpointInterval == 0 ==>
        CheckpointOutcome(next, d, |old(Unopened())|, old(Remaining()), old(bonusOffered), old(bonus.State()),
          bonusOffered, bonus.State())
      // once the bonus sequence has run, nothing reaches the bonus manager again
      ensures old(bonusOffered) ==> bonusOffered && bonus.State() == old(bonus.State())
    {
      MarkPriceAsOpened(idx);
      next := NoCheckpoint;
      if openedCasesCount % CheckpointInterval == 0 {
        next := ShowBankerOffer(d);
      } else {
        var unopened := GetUnopenedCount();
        if unopened == 1 {
          next := ShowFinalReveal();
        }
      }
    }

    /** Records the amount that case `caseIndex` stands for as opened: its
        displaced amount if it holds an item, its own amount otherwise. */
    method MarkPriceAsOpened(caseIndex: int)
      requires Valid() && 0 <= caseIndex < NumCases
      modifies this`openedValues
      ensures Valid()
      ensures openedValues == old(openedValues) + {Denoms()[caseIndex]}
    {
      DenominationInValues(caseIndex);
      if caseReplaced[caseIndex] != NoValue {
        var removed := caseReplaced[caseIndex];
        openedValues := openedValues + {removed};
        return;
      }
      var val := caseValues[caseIndex];
      openedValues := openedValues + {val};
    }

    /** Number of unopened cases besides the player's. */
    method GetUnopenedCount() returns (count: int)
      requires Valid()
      ensures count == |Unopened()|
    {
      count := 0;
      for i := 0 to NumCases
        invariant count == |UnopenedBelow(disabled[..], playerCase, i)|
      {
        assert UnopenedBelow(disabled[..], playerCase, i + 1) ==
          UnopenedBelow(disabled[..], playerCase, i) + (if i != playerCase && !disabled[i] then {i} else {});
        if i == playerCase {
          continue;
        }
        if !disabled[i] {
          count := count + 1;
        }
      }
    }

    /** The amounts still in play, in case order: the player's case and every
        enabled case, items skipped. */
    method CollectRemaining() returns (remaining: seq<int>)
      requires Valid()
      ensures remaining == Remaining()
      ensures forall v :: v in remaining ==> v in board && v > 0
      ensures PositiveCount(remaining) == |remaining|
    {
      remaining := [];
      for i := 0 to NumCases
        invariant remaining == RemainingValues(caseValues[..i], disabled[..i], playerCase)
      {
        RemainingValuesStep(caseValues[..], disabled[..], playerCase, i);
        if i != playerCase && disabled[i] {
          continue;
        }
        if caseValues[i] != NoValue {
          remaining := remaining + [caseValues[i]];
        }
      }
      assert caseValues[..NumCases] == caseValues[..];
      assert disabled[..NumCases] == disabled[..];
      RemainingOnBoard();
    }

    /** The amounts in play are amounts of the board, all of them positive. */
    lemma RemainingOnBoard()
      requires Valid()
      ensures forall v :: v in Remaining() ==> v in board && v > 0
      ensures PositiveCount(Remaining()) == |Remaining()|
    {
      var remaining := Remaining();
      forall v | v in remaining ensures v in board && v > 0 {
        var i :| 0 <= i < NumCases && (i == playerCase || !disabled[i]) && caseValues[i] == v;
        DenominationInValues(i);
      }
      AllPositiveCounted(remaining);
    }

    /** The checkpoint reached every third opening: final reveal if only one
        other case is left; otherwise nothing when no amount is in play;
        otherwise, the first time the 0.30 roll succeeds, the bonus sequence;
        otherwise a swap proposal (roll below 0.20) or the plain cash offer. */
    method ShowBankerOffer(d: Draws) returns (c: Checkpoint)
      requires Valid() && ValidDraws(d) && playerCase != -1
      modifies this`bonusOffered, disabled, bonus
      ensures Valid()
      ensures CheckpointOutcome(c, d, |old(Unopened())|, old(Remaining()), old(bonusOffered), old(bonus.State()),
        bonusOffered, bonus.State())
      ensures c.FinalReveal? ==> c.player == ContentOf(playerCase) && AllDisabled()
      ensures !c.FinalReveal? ==> disabled[..] == old(disabled[..])
      ensures old(ContentOf(playerCase)).Cash? ==> c != NoOffer
    {
      var unopened := GetUnopenedCount();
      if unopened == 1 {
        c := ShowFinalReveal();
        return;
      }
      c := ShowOffer(d);
    }

    /** The banker's checkpoint once more than one other case is left: nothing
        when no amount remains, otherwise (once per game, with probability
        0.30) the bonus sequence, otherwise a swap proposal or the cash offer. */
    method ShowOffer(d: Draws) returns (c: Checkpoint)
      requires Valid() && ValidDraws(d) && playerCase != -1
      modifies this`bonusOffered, bonus
      ensures Valid()
      ensures OfferOutcome(c, d, old(Remaining()), old(bonusOffered), old(bonus.State()), bonusOffered, bonus.State())
      ensures old(ContentOf(playerCase)).Cash? ==> c != NoOffer
    {
      var remaining := CollectRemaining();
      assert ContentOf(playerCase).Cash? ==> caseValues[playerCase] in remaining;
      if |remaining| == 0 {
        return NoOffer;
      }
      if !bonusOffered && d.bonusRoll < BonusTriggerChance {
        bonusOffered := true;
        c := ShowBonusSequence(remaining, d);
        return;
      }
      if OfferSwap(d.swapRoll) {
        return SwapProposed;
      }
      var offer := CalculateOffer(remaining, d.offerRoll);
      c := OfferPresented(offer);
    }

    /** The bonus sequence: the multiplier dialog if it is available, then the
        additive dialog if it is available, then the banker's turn with any
        chosen bonus applied to the offer. */
    method ShowBonusSequence(remaining: seq<int>, d: Draws) returns (c: Checkpoint)
      requires ValidDraws(d)
      requires bonus.Valid() && !bonus.multiplierUsed && !bonus.additiveUsed
      modifies bonus
      ensures bonus.Valid()
      ensures bonus.multiplierActive == old(bonus.multiplierActive) && bonus.additiveActive == old(bonus.additiveActive)
      ensures bonus.multiplierUsed == old(bonus.HasMultiplier()) && bonus.additiveUsed == old(bonus.HasAdditive())
      ensures SequenceOutcome(c, remaining, d, old(bonus.HasMultiplier()), old(bonus.HasAdditive()), bonus.multiplier, bonus.additive)
    {
      var hasMultiplier := bonus.HasMultiplier();
      var hasAdditive := bonus.HasAdditive();
      if hasMultiplier && hasAdditive {
        var _ := bonus.TriggerMultiplier(d.multiplierQs, d.multiplierTimes, d.multiplierChoice);
        var _ := bonus.TriggerAdditive(d.additiveVs, d.additivePlus, d.additiveChoice);
      } else if hasMultiplier {
        var _ := bonus.TriggerMultiplier(d.multiplierQs, d.multiplierTimes, d.multiplierChoice);
      } else if hasAdditive {
        var _ := bonus.TriggerAdditive(d.additiveVs, d.additivePlus, d.additiveChoice);
      }
      c := ProceedWithBankerOffer(remaining, d);
    }

    /** The banker's turn after the bonus sequence: a swap proposal (roll
        below 0.20), or the cash offer with the pending bonus applied. */
    method ProceedWithBankerOffer(remaining: seq<int>, d: Draws) returns (c: Checkpoint)
      requires ValidDraws(d)
      requires bonus.Valid()
      modifies bonus`multiplier, bonus`additive
      ensures bonus.Valid()
      ensures OfferSwap(d.swapRoll) ==> c == SwapProposed && unchanged(bonus)
      ensures !OfferSwap(d.swapRoll) ==>
        !bonus.HasPendingBonus() &&
        c == OfferPresented(
          if old(bonus.HasPendingBonus())
          then BonusedOffer(Offer(remaining, d.offerRoll), old(bonus.multiplier), old(bonus.additive))
          else Offer(remaining, d.offerRoll))
    {
      if OfferSwap(d.swapRoll) {
        return SwapProposed;
      }
      var offer := CalculateOffer(remaining, d.offerRoll);
      if bonus.HasPendingBonus() {
        offer := bonus.Apply(offer);
      }
      c := OfferPresented(offer);
    }

    /** The final reveal: the player's case content is shown and every button
        is disabled. */
    method ShowFinalReveal() returns (c: Checkpoint)
      requires Valid() && playerCase != -1
      modifies disabled
      ensures Valid()
      ensures c == FinalReveal(ContentOf(playerCase))
      ensures AllDisabled()
    {
      c := FinalReveal(ContentOf(playerCase));
      DisableAll();
    }

    /** The player accepts a cash offer: the game ends showing the content of
        the player's case, and every button is disabled. */
    method AcceptDeal() returns (content: Content)
      requires Valid() && playerCase != -1
      modifies disabled
      ensures Valid()
      ensures content == ContentOf(playerCase)
      ensures AllDisabled()
    {
      content := ContentOf(playerCase);
      DisableAll();
    }

    method DisableAll()
      requires Valid() && playerCase != -1
      modifies disabled
      ensures Valid()
      ensures AllDisabled()
    {
      for i := 0 to NumCases
        invariant Valid()
        invariant forall k :: 0 <= k < i ==> disabled[k]
      {
        disabled[i] := true;
      }
    }

    /** The cases offered in the swap dialog: every unopened case besides the
        player's, in increasing order. */
    method SwapCandidates() returns (options: seq<int>)
      requires Valid()
      ensures forall k, l :: 0 <= k < l < |options| ==> options[k] < options[l]
      ensures forall i :: i in options <==> i in Unopened()
    {
      options := [];
      for i := 0 to NumCases
        invariant forall k, l :: 0 <= k < l < |options| ==> options[k] < options[l]
        invariant forall k :: 0 <= k < |options| ==> options[k] < i
        invariant forall j :: j in options <==> j in UnopenedBelow(disabled[..], playerCase, i)
      {
        if i != playerCase && !disabled[i] {
          options := options + [i];
        }
      }
    }

    /** Exchanges the contents of the player's case and case `newIdx`; the
        player's case becomes `newIdx`, the old one is enabled again and the
        new one disabled. */
    method SwapCase(newIdx: int)
      requires Valid() && playerCase != -1
      requires newIdx in Unopened()
      modifies this`playerCase, caseValues, caseReplaced, itemNames, disabled
      ensures Valid()
      ensures playerCase == newIdx
      ensures caseValues[..] == Swapped(old(caseValues[..]), old(playerCase), newIdx)
      ensures caseReplaced[..] == Swapped(old(caseReplaced[..]), old(playerCase), newIdx)
      ensures itemNames[..] == Swapped(old(itemNames[..]), old(playerCase), newIdx)
      ensures disabled[..] == old(disabled[..])[old(playerCase) := false][newIdx := true]
      ensures ContentOf(playerCase) == old(ContentOf(playerCase))
      ensures ContentOf(old(playerCase)) == old(ContentOf(newIdx))
      ensures Unopened() == old(Unopened()) - {newIdx} + {old(playerCase)}
    {
      SwapContents(playerCase, newIdx);
      MoveClaim(newIdx);
    }

    /** The player's case becomes `newIdx`: the old case is enabled again and
        the new one disabled. */
    method MoveClaim(newIdx: int)
      requires Valid() && playerCase != -1
      requires newIdx in Unopened()
      modifies this`playerCase, disabled
      ensures Valid()
      ensures playerCase == newIdx
      ensures disabled[..] == old(disabled[..])[old(playerCase) := false][newIdx := true]
      ensures Unopened() == old(Unopened()) - {newIdx} + {old(playerCase)}
      ensures ContentOf(newIdx) == old(ContentOf(newIdx)) && ContentOf(old(playerCase)) == old(ContentOf(playerCase))
    {
      ghost var buttons := disabled[..];
      var oldPlayerCase := playerCase;
      playerCase := newIdx;
      disabled[oldPlayerCase] := false;
      disabled[newIdx] := true;
      assert disabled[..] == buttons[oldPlayerCase := false][newIdx := true];
      UnopenedAfterSwap(buttons, oldPlayerCase, newIdx);
    }

    /** Exchanges the contents (amount, displaced amount, name) of cases `i` and `j`. */
    method SwapContents(i: int, j: int)
      requires Valid() && 0 <= i < NumCases && 0 <= j < NumCases
      modifies caseValues, caseReplaced, itemNames
      ensures Valid()
      ensures caseValues[..] == Swapped(old(caseValues[..]), i, j)
      ensures caseReplaced[..] == Swapped(old(caseReplaced[..]), i, j)
      ensures itemNames[..] == Swapped(old(itemNames[..]), i, j)
      ensures Denoms() == Swapped(old(Denoms()), i, j)
      ensures ContentOf(i) == old(ContentOf(j)) && ContentOf(j) == old(ContentOf(i))
    {
      ghost var values, replaced, names := caseValues[..], caseReplaced[..], itemNames[..];
      SwapEntries(caseValues, i, j);
      SwapEntries(itemNames, i, j);
      SwapEntries(caseReplaced, i, j);
      SwappedCasesValid(values, replaced, names, board, i, j);
      SwappedDenominations(values, replaced, i, j);
    }

    /** The sidebar: each amount in board order, replaced by the sentinel when
        an item displaced it, and marked when it has been opened. */
    method RefreshLabels() returns (labels: seq<SidebarLabel>)
      requires Valid()
      ensures |labels| == |board|
      ensures forall i :: 0 <= i < |board| ==>
        labels[i].shown == (if board[i] in ReplacedSet(caseReplaced[..]) then ItemPriceSentinel else board[i])
      ensures forall i :: 0 <= i < |board| ==> (labels[i].checked <==> board[i] in openedValues)
    {
      var removed: set<int> := {};
      for i := 0 to NumCases
        invariant removed == ReplacedSet(caseReplaced[..i])
      {
        assert caseReplaced[..i + 1] == caseReplaced[..i] + [caseReplaced[i]];
        if caseReplaced[i] != NoValue {
          removed := removed + {caseReplaced[i]};
        }
      }
      assert caseReplaced[..NumCases] == caseReplaced[..];

      var display := board;
      for i := 0 to |display|
        invariant |display| == |board|
        invariant forall k :: 0 <= k < i ==> display[k] == (if board[k] in removed then ItemPriceSentinel else board[k])
        invariant forall k :: i <= k < |display| ==> display[k] == board[k]
      {
        if display[i] in removed {
          display := display[i := ItemPriceSentinel];
        }
      }

      labels := [];
      for i := 0 to |display|
        invariant |labels| == i
        invariant forall k :: 0 <= k < i ==> labels[k] == Label(display[k], board[k] in openedValues)
      {
        labels := labels + [Label(display[i], IsValueOpened(board[i]))];
      }
    }

    /** Whether amount `v` has been opened (the sidebar's check mark). */
    predicate IsValueOpened(v: int): (isOpened: bool)
      reads this
      ensures isOpened <==> v in openedValues
    {
      v in openedValues
    }
  }

  /** What the banker's checkpoint leads to once more than one other case is
      left, given the amounts in play, whether the bonus sequence had run and
      the bonus manager before (`before`) and after (`after`): nothing iff no
      amount is in play; the bonus sequence the first time the 0.30 roll
      succeeds, which marks each offered bonus used and leaves the
      eligibilities alone; otherwise a swap proposal on the 0.20 roll or the
      plain offer, with the bonus manager untouched. */
  ghost predicate OfferOutcome(c: Checkpoint, d: Draws, remaining: seq<int>, offered: bool, before: BonusState,
                               offeredAfter: bool, after: BonusState)
    requires ValidDraws(d)
  {
    var sequence := !offered && d.bonusRoll < BonusTriggerChance;
    var hadMultiplier := before.multiplierActive && !before.multiplierUsed;
    var hadAdditive := before.additiveActive && !before.additiveUsed;
    (c.NoOffer? || c.SwapProposed? || c.OfferPresented?) &&
    (c.NoOffer? <==> remaining == []) &&
    (c.NoOffer? ==> offeredAfter == offered && after == before) &&
    // the bonus sequence is entered at most once per game
    offeredAfter == (offered || (remaining != [] && d.bonusRoll < BonusTriggerChance)) &&
    (!c.NoOffer? ==> (c.SwapProposed? <==> OfferSwap(d.swapRoll))) &&
    (!c.NoOffer? && !sequence ==>
      after == before && (c.OfferPresented? ==> c.amount == Offer(remaining, d.offerRoll))) &&
    (!c.NoOffer? && sequence ==>
      after.multiplierActive == before.multiplierActive && after.additiveActive == before.additiveActive &&
      after.multiplierUsed == hadMultiplier && after.additiveUsed == hadAdditive &&
      SequenceOutcome(c, remaining, d, hadMultiplier, hadAdditive, after.multiplier, after.additive))
  }

  /** What the banker's checkpoint leads to when `unopenedCount` cases other
      than the player's are unopened: the final reveal, which leaves the bonus
      alone, iff there is exactly one; otherwise `OfferOutcome`. */
  ghost predicate CheckpointOutcome(c: Checkpoint, d: Draws, unopenedCount: int, remaining: seq<int>, offered: bool,
                                    before: BonusState, offeredAfter: bool, after: BonusState)
    requires ValidDraws(d)
  {
    (c.FinalReveal? <==> unopenedCount == 1) &&
    (c.FinalReveal? ==> offeredAfter == offered && after == before) &&
    (!c.FinalReveal? ==> OfferOutcome(c, d, remaining, offered, before, offeredAfter, after))
  }

  /** What the bonus sequence leads to, for a sequence that offered the
      multiplier iff `hadMultiplier` and the additive iff `hadAdditive`: on a
      swap proposal the chosen bonus stays pending; on a cash offer it is
      applied and cleared. */
  ghost predicate SequenceOutcome(c: Checkpoint, remaining: seq<int>, d: Draws, hadMultiplier: bool, hadAdditive: bool,
                                  multiplier: real, additive: int)
    requires ValidDraws(d)
  {
    var m := if hadMultiplier then ChosenMultiplier(d) else 1.0;
    var a := if hadAdditive then ChosenAdditive(d) else 0;
    var base := Offer(remaining, d.offerRoll);
    (c.SwapProposed? || c.OfferPresented?) &&
    (c.SwapProposed? <==> OfferSwap(d.swapRoll)) &&
    (c.SwapProposed? ==> multiplier == m && additive == a) &&
    (c.OfferPresented? ==>
      multiplier == 1.0 && additive == 0 &&
      c.amount == (if hadMultiplier || hadAdditive then BonusedOffer(base, m, a) else base))
  }

  /** When every entry is positive, the banker counts all of them. */
  lemma {:induction false} AllPositiveCounted(values: seq<int>)
    requires forall v :: v in values ==> v > 0
    ensures PositiveCount(values) == |values|
  {
    if values != [] {
      var init := values[..|values| - 1];
      assert forall v :: v in init ==> v in values;
      assert values[|values| - 1] in values;
      AllPositiveCounted(init);
    }
  }
}
