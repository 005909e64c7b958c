/**
 * The list of item cards: for each item one card whose expanded and
 * deletable flags are derived from the list and the single expanded id,
 * and the two callbacks that set or clear that id.
 */
module ItemList {
  import opened Wrappers
  import opened OrderItem

  /** An order line of the list view: the item fields plus its stable id. */
  datatype ListedItem = ListedItem(id: string, fields: Item)

  /** The properties one `ItemCard` receives. */
  datatype Card = Card(item: ListedItem, isExpanded: bool, isDeletable: bool)

  /** What the section shows: the empty-state message, or the cards. */
  datatype View = EmptyState | CardList(cards: seq<Card>)

  /** The `items.map` building one card per item. */
  function Cards(items: seq<ListedItem>, expandedItemId: Option<string>): (cards: seq<Card>)
    ensures |cards| == |items|
    ensures forall k :: 0 <= k < |cards| ==> cards[k].item == items[k]
    ensures forall k :: 0 <= k < |cards| ==> (cards[k].isExpanded <==> expandedItemId == Some(items[k].id))
    ensures forall k :: 0 <= k < |cards| ==> (cards[k].isDeletable <==> |items| > 1)
  {
    seq(|items|, k requires 0 <= k < |items| => Card(items[k], Some(items[k].id) == expandedItemId, |items| > 1))
  }

  /** The section body: the empty-state message for an empty list, the cards otherwise. */
  function Render(items: seq<ListedItem>, expandedItemId: Option<string>): (v: View)
    ensures v.EmptyState? <==> items == []
    ensures v.CardList? ==> v.cards == Cards(items, expandedItemId) && v.cards != []
  {
    if |items| == 0 then EmptyState else CardList(Cards(items, expandedItemId))
  }

  /** The id `onExpand` of a card passes to `setExpandedItemId`. */
  function OnExpand(card: Card): Option<string>
  {
    Some(card.item.id)
  }

  /** The id `onCollapse` of a card passes to `setExpandedItemId`: none. */
  function OnCollapse(card: Card): Option<string>
  {
    None
  }

  ghost predicate DistinctIds(items: seq<ListedItem>)
  {
    forall i, j :: 0 <= i < |items| && 0 <= j < |items| && i != j ==> items[i].id != items[j].id
  }

  /** The items the cards were made for, in card order. */
  function ItemsOf(cards: seq<Card>): (items: seq<ListedItem>)
    ensures |items| == |cards| && forall k :: 0 <= k < |cards| ==> items[k] == cards[k].item
  {
    seq(|cards|, k requires 0 <= k < |cards| => cards[k].item)
  }

  /** How many cards are expanded. */
  function ExpandedCount(cards: seq<Card>): nat
  {
    if cards == [] then 0 else (if cards[0].isExpanded then 1 else 0) + ExpandedCount(cards[1..])
  }

  /** Cards flagged as the derivation does for `expandedItemId`, without regard to deletability. */
  ghost predicate FlaggedFor(cards: seq<Card>, expandedItemId: Option<string>)
  {
    forall k :: 0 <= k < |cards| ==> (cards[k].isExpanded <==> expandedItemId == Some(cards[k].item.id))
  }

  lemma {:induction false} ExpandedCountOfFlagged(cards: seq<Card>, expandedItemId: Option<string>)
    requires FlaggedFor(cards, expandedItemId)
    requires DistinctIds(ItemsOf(cards))
    ensures ExpandedCount(cards) == if exists k :: 0 <= k < |cards| && expandedItemId == Some(cards[k].item.id) then 1 else 0
  {
    if cards != [] {
      var rest := cards[1..];
      assert forall k :: 0 <= k < |rest| ==> rest[k] == cards[k + 1];
      ExpandedCountOfFlagged(rest, expandedItemId);
      if cards[0].isExpanded {
        assert !exists k :: 0 <= k < |rest| && expandedItemId == Some(rest[k].item.id);
      } else if exists k :: 0 <= k < |cards| && expandedItemId == Some(cards[k].item.id) {
        var k :| 0 <= k < |cards| && expandedItemId == Some(cards[k].item.id);
        assert rest[k - 1] == cards[k];
      }
    }
  }

  lemma {:induction false} ExpandedCountNone(cards: seq<Card>)
    requires forall k :: 0 <= k < |cards| ==> !cards[k].isExpanded
    ensures ExpandedCount(cards) == 0
  {
    if cards != [] {
      assert forall k :: 0 <= k < |cards| - 1 ==> cards[1..][k] == cards[k + 1];
      ExpandedCountNone(cards[1..]);
    }
  }

  /** With no expanded id, no card is expanded, whatever the ids. */
  lemma NoneExpandedWhenNull(items: seq<ListedItem>)
    ensures ExpandedCount(Cards(items, None)) == 0
  {
    ExpandedCountNone(Cards(items, None));
  }

  /**
   * With pairwise distinct ids exactly one card is expanded when the
   * expanded id belongs to an item, and none otherwise.
   */
  lemma AtMostOneExpanded(items: seq<ListedItem>, expandedItemId: Option<string>)
    requires DistinctIds(items)
    ensures ExpandedCount(Cards(items, expandedItemId)) ==
            if exists k :: 0 <= k < |items| && expandedItemId == Some(items[k].id) then 1 else 0
  {
    var cards := Cards(items, expandedItemId);
    ExpandedCountOfFlagged(cards, expandedItemId);
    if exists k :: 0 <= k < |items| && expandedItemId == Some(items[k].id) {
      var k :| 0 <= k < |items| && expandedItemId == Some(items[k].id);
      assert cards[k].item == items[k];
    }
  }

  /** A sole item is never deletable; with two or more items every card is. */
  lemma SoleItemNotDeletable(items: seq<ListedItem>, expandedItemId: Option<string>)
    ensures |items| == 1 ==> !Cards(items, expandedItemId)[0].isDeletable
    ensures forall k :: 0 <= k < |items| ==> Cards(items, expandedItemId)[k].isDeletable == Cards(items, expandedItemId)[0].isDeletable
  {
  }

  /**
   * After a card's `onExpand`, re-deriving the cards expands that card and,
   * with distinct ids, no other.
   */
  lemma ExpandThenRender(items: seq<ListedItem>, e: Option<string>, k: nat)
    requires DistinctIds(items)
    requires k < |items|
    ensures var cards := Cards(items, OnExpand(Cards(items, e)[k]));
            cards[k].isExpanded && forall j :: 0 <= j < |cards| && j != k ==> !cards[j].isExpanded
  {
  }

  /** After any card's `onCollapse`, re-deriving the cards expands none. */
  lemma CollapseThenRender(items: seq<ListedItem>, e: Option<string>, k: nat)
    requires k < |items|
    ensures var cards := Cards(items, OnCollapse(Cards(items, e)[k]));
            forall j :: 0 <= j < |cards| ==> !cards[j].isExpanded
  {
  }
}
