/**
  Submitting a trade-up: which requests are sent to the game, and with which body.

  `covert` stands for strings.EqualFold with "covert".
 */
module TradeUps {
  import opened Prelude
  import opened Strings
  import opened Craft

  datatype Item = Item(
    id: string, isWeaponSkin: bool, knownWear: bool, outcomes: nat, inCasket: bool, souvenir: bool,
    rarity: string, statTrak: bool)

  datatype Refusal =
    | Disabled | NotConnected
    | NotAList | NotAString | NotAnID
    | NotInInventory
    | Nothing | WrongNumber(required: nat) | NotEligible | InCasket | Souvenir | Mixed
    | NotEncoded(error: Craft.Error)

  const RECIPE: int16 := 7

  // ----- the ids asked for -----

  /** A value of the list, `None` if it is not a string. */
  function ParseID(value: Option<string>): Result<uint64, Refusal> {
    if value.None? then Err(NotAString)
    else
      match ParseUint(value.value, 0x1_0000_0000_0000_0000)
      case None => Err(NotAnID)
      case Some(id) => if id == 0 then Err(NotAnID) else Ok(id)
  }

  function Front(front: seq<uint64>, r: Result<seq<uint64>, Refusal>): Result<seq<uint64>, Refusal> {
    if r.Ok? then Ok(front + r.value) else r
  }

  function ParseIDs(values: seq<Option<string>>): Result<seq<uint64>, Refusal> {
    if values == [] then Ok([])
    else
      var id :- ParseID(values[0]);
      Front([id], ParseIDs(values[1..]))
  }

  function AskedFor(input: Option<seq<Option<string>>>): Result<seq<uint64>, Refusal> {
    if input.None? then Err(NotAList) else ParseIDs(input.value)
  }

  lemma FrontMore(ids: seq<uint64>, id: uint64, r: Result<seq<uint64>, Refusal>)
    ensures Front([], r) == r
    ensures Front(ids, Front([id], r)) == Front(ids + [id], r)
  {
    if r.Ok? {
      assert [] + r.value == r.value;
      assert ids + ([id] + r.value) == ids + [id] + r.value;
    }
  }

  /** The text is a positive number of 64 bits. */
  predicate IsID(value: Option<string>, id: nat) {
    value.Some? && AllDigits(value.value) && Value(value.value) == id && 0 < id < 0x1_0000_0000_0000_0000
  }

  lemma {:induction false} ParseIDsIs(values: seq<Option<string>>, ids: seq<uint64>)
    ensures ParseIDs(values) == Ok(ids) <==>
            |ids| == |values| && forall i :: 0 <= i < |ids| ==> IsID(values[i], ids[i])
  {
    if values == [] {
    } else if ids == [] {
    } else {
      ParseIDsIs(values[1..], ids[1..]);
      assert ids == [ids[0]] + ids[1..] && values == [values[0]] + values[1..];
    }
  }

  /** The ids asked for are the list's texts, if there is a list and every text is an id. */
  lemma AskedForIs(input: Option<seq<Option<string>>>, ids: seq<uint64>)
    ensures AskedFor(input) == Ok(ids) <==>
            && input.Some? && |ids| == |input.value|
            && forall i :: 0 <= i < |ids| ==> IsID(input.value[i], ids[i])
  {
    if input.Some? {
      ParseIDsIs(input.value, ids);
    }
  }

  predicate SomeID(value: Option<string>) {
    value.Some? && AllDigits(value.value) && IsID(value, Value(value.value))
  }

  /** Otherwise the first element that is not one decides the error. */
  lemma {:induction false} FirstBadID(values: seq<Option<string>>, i: nat)
    requires i < |values| && !SomeID(values[i]) && forall j :: 0 <= j < i ==> SomeID(values[j])
    ensures AskedFor(Some(values)) == Err(if values[i].None? then NotAString else NotAnID)
    ensures AskedFor(None) == Err(NotAList)
  {
    if i == 0 {
    } else {
      assert SomeID(values[0]);
      FirstBadID(values[1..], i - 1);
    }
  }

  method TradeUpItemIDs(input: Option<seq<Option<string>>>) returns (r: Result<seq<uint64>, Refusal>)
    ensures r == AskedFor(input)
  {
    if input.None? {
      return Err(NotAList);
    }
    var values := input.value;
    var ids: seq<uint64> := [];
    var i := 0;
    FrontMore([], 0, ParseIDs(values));
    while i < |values|
      invariant 0 <= i <= |values|
      invariant ParseIDs(values) == Front(ids, ParseIDs(values[i..]))
    {
      var id := ParseID(values[i]);
      assert values[i..][1..] == values[i + 1..];
      if id.Err? {
        return Err(id.error);
      }
      FrontMore(ids, id.value, ParseIDs(values[i + 1..]));
      ids := ids + [id.value];
      i := i + 1;
    }
    assert ids + [] == ids;
    return Ok(ids);
  }

  // ----- the items of the inventory -----

  function IDTexts(ids: seq<uint64>): set<string> {
    set id <- ids :: Dec(id)
  }

  /** The first item of each wanted id, in the order of the inventory, and the ids that are left. */
  function Take(inventory: seq<Item>, wanted: set<string>): (seq<Item>, set<string>) {
    if inventory == [] then ([], wanted)
    else if inventory[0].id in wanted then
      var (items, left) := Take(inventory[1..], wanted - {inventory[0].id});
      ([inventory[0]] + items, left)
    else Take(inventory[1..], wanted)
  }

  function TakeAll(inventory: seq<Item>, ids: seq<uint64>): Option<seq<Item>> {
    var (items, left) := Take(inventory, IDTexts(ids));
    if left == {} then Some(items) else None
  }

  method TradeUpInventoryItems(inventory: seq<Item>, ids: seq<uint64>) returns (r: Option<seq<Item>>)
    ensures r == TakeAll(inventory, ids)
  {
    var wanted := {};
    var i := 0;
    while i < |ids|
      invariant 0 <= i <= |ids| && wanted == IDTexts(ids[..i])
    {
      wanted := wanted + {Dec(ids[i])};
      assert ids[..i + 1] == ids[..i] + [ids[i]];
      i := i + 1;
    }
    assert ids[..i] == ids;
    ghost var all := Take(inventory, wanted);
    var items := [];
    assert [] + all.0 == all.0;
    i := 0;
    while i < |inventory|
      invariant 0 <= i <= |inventory|
      invariant all == var t := Take(inventory[i..], wanted); (items + t.0, t.1)
    {
      var item := inventory[i];
      assert inventory[i..][1..] == inventory[i + 1..];
      if item.id in wanted {
        ghost var more := Take(inventory[i + 1..], wanted - {item.id}).0;
        assert items + ([item] + more) == items + [item] + more;
        items := items + [item];
        wanted := wanted - {item.id};
      }
      i := i + 1;
    }
    assert items + [] == items;
    return if wanted != {} then None else Some(items);
  }

  // ----- the checks of the items -----

  predicate Eligible(item: Item) {
    item.isWeaponSkin && item.knownWear && item.outcomes > 0
  }

  function CheckItem(item: Item, first: Item): Option<Refusal> {
    if !Eligible(item) then Some(NotEligible)
    else if item.inCasket then Some(InCasket)
    else if item.souvenir then Some(Souvenir)
    else if item.rarity != first.rarity || item.statTrak != first.statTrak then Some(Mixed)
    else None
  }

  function CheckAll(items: seq<Item>, first: Item): Option<Refusal> {
    if items == [] then None
    else if CheckItem(items[0], first).Some? then CheckItem(items[0], first)
    else CheckAll(items[1..], first)
  }

  function Required(covert: string -> bool, rarity: string): nat {
    if covert(rarity) then 5 else 10
  }

  function Check(covert: string -> bool, items: seq<Item>): Option<Refusal> {
    if items == [] then Some(Nothing)
    else if |items| != Required(covert, items[0].rarity) then Some(WrongNumber(Required(covert, items[0].rarity)))
    else CheckAll(items, items[0])
  }

  method ValidateTradeUpItems(covert: string -> bool, items: seq<Item>) returns (r: Option<Refusal>)
    ensures r == Check(covert, items)
  {
    if |items| == 0 {
      return Some(Nothing);
    }
    var required := 10;
    if covert(items[0].rarity) {
      required := 5;
    }
    if |items| != required {
      return Some(WrongNumber(required));
    }
    var first := items[0];
    var i := 0;
    while i < |items|
      invariant 0 <= i <= |items| && CheckAll(items, first) == CheckAll(items[i..], first)
    {
      var item := items[i];
      assert items[i..][1..] == items[i + 1..];
      if !item.isWeaponSkin || !item.knownWear || item.outcomes == 0 {
        return Some(NotEligible);
      }
      if item.inCasket {
        return Some(InCasket);
      }
      if item.souvenir {
        return Some(Souvenir);
      }
      if item.rarity != first.rarity || item.statTrak != first.statTrak {
        return Some(Mixed);
      }
      i := i + 1;
    }
    return None;
  }

  /** Why items are refused: none, a wrong number, or what is wrong with the first that is. */
  lemma {:induction false} RefusalIs(covert: string -> bool, items: seq<Item>, i: nat)
    ensures items == [] ==> Check(covert, items) == Some(Nothing)
    ensures items != [] ==>
      var n := if covert(items[0].rarity) then 5 else 10;
      if |items| != n then Check(covert, items) == Some(WrongNumber(n))
      else i < |items| && FirstWrong(items, items[0], i) ==> Check(covert, items) == Some(WhatIsWrong(items[i]))
  {
    if items != [] && i < |items| && FirstWrong(items, items[0], i) {
      FirstWrongIs(items, items[0], i);
    }
  }

  predicate Wrong(item: Item, first: Item) {
    || !item.isWeaponSkin || !item.knownWear || item.outcomes == 0 || item.inCasket || item.souvenir
    || item.rarity != first.rarity || item.statTrak != first.statTrak
  }

  predicate FirstWrong(items: seq<Item>, first: Item, i: nat)
    requires i < |items|
  {
    Wrong(items[i], first) && forall j :: 0 <= j < i ==> !Wrong(items[j], first)
  }

  function WhatIsWrong(item: Item): Refusal {
    if !(item.isWeaponSkin && item.knownWear && item.outcomes > 0) then NotEligible
    else if item.inCasket then InCasket
    else if item.souvenir then Souvenir
    else Mixed
  }

  lemma {:induction false} FirstWrongIs(items: seq<Item>, first: Item, i: nat)
    requires i < |items| && FirstWrong(items, first, i)
    ensures CheckAll(items, first) == Some(WhatIsWrong(items[i]))
  {
    if i == 0 {
    } else {
      assert !Wrong(items[0], first);
      FirstWrongIs(items[1..], first, i - 1);
    }
  }

  /** The first item of the inventory with the id. */
  function ItemOf(inventory: seq<Item>, id: string): Option<Item> {
    if inventory == [] then None
    else if inventory[0].id == id then Some(inventory[0])
    else ItemOf(inventory[1..], id)
  }

  predicate Suits(item: Option<Item>, rarity: string, statTrak: bool) {
    item.Some? && Eligible(item.value) && !item.value.inCasket && !item.value.souvenir
    && item.value.rarity == rarity && item.value.statTrak == statTrak
  }

  /** Each id is that of a suitable item of the inventory, all of one rarity and StatTrak type. */
  ghost predicate AllSuit(inventory: seq<Item>, ids: seq<uint64>, rarity: string, statTrak: bool) {
    forall id <- ids :: Suits(ItemOf(inventory, Dec(id)), rarity, statTrak)
  }

  /**
    The ids are distinct; each is that of an eligible item of the inventory, outside storage and not a
    souvenir; all have one rarity and StatTrak type; and there are 10 of them, or 5 if the rarity is covert.
   */
  ghost predicate MayTradeUp(covert: string -> bool, inventory: seq<Item>, ids: seq<uint64>) {
    exists rarity, statTrak ::
      AllSuit(inventory, ids, rarity, statTrak) && |ids| == (if covert(rarity) then 5 else 10) && Distinct(ids)
  }

  lemma {:induction false} TakeLeaves(inventory: seq<Item>, wanted: set<string>)
    ensures var taken := Take(inventory, wanted);
      var items, left := taken.0, taken.1;
      && left <= wanted && |items| == |wanted| - |left|
      && (forall w <- wanted :: w in left <==> ItemOf(inventory, w).None?)
  {
    if inventory == [] {
    } else {
      var id := inventory[0].id;
      TakeLeaves(inventory[1..], wanted - {id});
      TakeLeaves(inventory[1..], wanted);
    }
  }

  lemma {:induction false} TakeHas(inventory: seq<Item>, wanted: set<string>, item: Item)
    ensures item in Take(inventory, wanted).0 <==> item.id in wanted && ItemOf(inventory, item.id) == Some(item)
  {
    if inventory == [] {
    } else {
      TakeHas(inventory[1..], wanted - {inventory[0].id}, item);
      TakeHas(inventory[1..], wanted, item);
    }
  }

  lemma {:induction false} TextsCount(ids: seq<uint64>)
    requires Distinct(ids)
    ensures |IDTexts(ids)| == |ids|
  {
    if ids == [] {
    } else {
      var last := |ids| - 1;
      TextsCount(ids[..last]);
      assert ids == ids[..last] + [ids[last]];
      assert IDTexts(ids) == IDTexts(ids[..last]) + {Dec(ids[last])};
      if Dec(ids[last]) in IDTexts(ids[..last]) {
        var id :| id in ids[..last] && Dec(id) == Dec(ids[last]);
        DecInjective(id, ids[last]);
      }
    }
  }

  lemma {:induction false} CheckAllIff(items: seq<Item>, first: Item)
    ensures CheckAll(items, first).None? <==> forall item <- items :: Suits(Some(item), first.rarity, first.statTrak)
  {
    if items == [] {
    } else {
      CheckAllIff(items[1..], first);
      assert items == [items[0]] + items[1..];
      assert CheckItem(items[0], first).None? <==> Suits(Some(items[0]), first.rarity, first.statTrak);
    }
  }

  /** The items taken from the inventory pass the checks. */
  predicate Passes(covert: string -> bool, inventory: seq<Item>, ids: seq<uint64>) {
    var taken := TakeAll(inventory, ids);
    taken.Some? && Check(covert, taken.value).None?
  }

  lemma PassesIfMay(covert: string -> bool, inventory: seq<Item>, ids: seq<uint64>)
    requires MayTradeUp(covert, inventory, ids)
    ensures Passes(covert, inventory, ids)
  {
    var rarity, statTrak :|
      AllSuit(inventory, ids, rarity, statTrak) && |ids| == Required(covert, rarity) && Distinct(ids);
    var wanted := IDTexts(ids);
    var (items, left) := Take(inventory, wanted);
    TakeLeaves(inventory, wanted);
    TextsCount(ids);
    assert left == {};
    forall item <- items ensures Suits(Some(item), rarity, statTrak) {
      TakeHas(inventory, wanted, item);
    }
    assert items[0] in items;
    CheckAllIff(items, items[0]);
  }

  lemma MayIfPasses(covert: string -> bool, inventory: seq<Item>, ids: seq<uint64>)
    requires Passes(covert, inventory, ids) && Distinct(ids)
    ensures MayTradeUp(covert, inventory, ids)
  {
    var wanted := IDTexts(ids);
    var (items, left) := Take(inventory, wanted);
    TakeLeaves(inventory, wanted);
    TextsCount(ids);
    CheckAllIff(items, items[0]);
    forall id <- ids ensures Suits(ItemOf(inventory, Dec(id)), items[0].rarity, items[0].statTrak) {
      assert Dec(id) in wanted;
      TakeHas(inventory, wanted, ItemOf(inventory, Dec(id)).value);
      ItemOfID(inventory, Dec(id));
    }
    assert AllSuit(inventory, ids, items[0].rarity, items[0].statTrak);
  }

  lemma {:induction false} ItemOfID(inventory: seq<Item>, id: string)
    ensures ItemOf(inventory, id).Some? ==> ItemOf(inventory, id).value.id == id
  {
    if inventory == [] {
    } else {
      ItemOfID(inventory[1..], id);
    }
  }

  // ----- the submission -----

  /** What the request carries to the game, or why it is refused. */
  method SubmitTradeUp(enabled: bool, connected: bool, inventory: seq<Item>, input: Option<seq<Option<string>>>,
                       covert: string -> bool)
    returns (r: Result<bytes, Refusal>)
    ensures r.Ok? ==> AskedFor(input).Ok? && r.value == Request(7, AskedFor(input).value)
    ensures r.Ok? <==>
      && enabled && connected && AskedFor(input).Ok?
      && MayTradeUp(covert, inventory, AskedFor(input).value)
  {
    if !enabled {
      return Err(Disabled);
    }
    if !connected {
      return Err(NotConnected);
    }
    var ids :- TradeUpItemIDs(input);
    if MayTradeUp(covert, inventory, ids) {
      PassesIfMay(covert, inventory, ids);
    }
    var items := TradeUpInventoryItems(inventory, ids);
    if items.None? {
      return Err(NotInInventory);
    }
    var detail := ValidateTradeUpItems(covert, items.value);
    if detail.Some? {
      return Err(detail.value);
    }
    var body := EncodeCraftRequest(RECIPE, ids);
    match body {
      case Ok(b) =>
        MayIfPasses(covert, inventory, ids);
        return Ok(b);
      case Err(e) => return Err(NotEncoded(e));
    }
  }
}
