/**
 * The FAQ list on the pricing page: category tabs with counts, the filtered
 * list, and the set of expanded answers (several may be open at once).
 */
module PricingFaq {

  import opened ListFilter

  /** The four values of the item's category union type. */
  datatype Category = Pricing | Features | Billing | Support

  function CategoryId(c: Category): string {
    match c
    case Pricing => "pricing"
    case Features => "features"
    case Billing => "billing"
    case Support => "support"
  }

  /** An FAQ entry; question and answer texts are display-only and omitted. */
  datatype FaqItem = FaqItem(id: string, category: Category)

  datatype CategoryTab = CategoryTab(id: string, name: string, count: nat)

  /** `faqItems.filter(item => item.category === id)`. */
  function WithCategory(items: seq<FaqItem>, id: string): seq<FaqItem> {
    Filter(items, (item: FaqItem) => CategoryId(item.category) == id)
  }

  /** `filteredItems`: the whole list for `'all'`, otherwise the items of the selected category. */
  function FilteredItems(items: seq<FaqItem>, activeCategory: string): (r: seq<FaqItem>)
    ensures activeCategory == "all" ==> r == items
    ensures activeCategory != "all" ==>
      (forall i | 0 <= i < |r| :: r[i] in items && CategoryId(r[i].category) == activeCategory) &&
      (forall i | 0 <= i < |items| :: CategoryId(items[i].category) == activeCategory ==> items[i] in r)
  {
    if activeCategory == "all" then items else WithCategory(items, activeCategory)
  }

  /** The five tabs, each with the length of the list it selects. */
  function Categories(items: seq<FaqItem>): (tabs: seq<CategoryTab>)
    ensures |tabs| == 5
    ensures forall k | 0 <= k < 5 :: tabs[k].count == |FilteredItems(items, tabs[k].id)|
    ensures tabs[0].count == tabs[1].count + tabs[2].count + tabs[3].count + tabs[4].count
  {
    CountsPartition(items);
    [ CategoryTab("all", "All Questions", |items|),
      CategoryTab("pricing", "Pricing", |WithCategory(items, "pricing")|),
      CategoryTab("features", "Features", |WithCategory(items, "features")|),
      CategoryTab("billing", "Billing", |WithCategory(items, "billing")|),
      CategoryTab("support", "Support", |WithCategory(items, "support")|) ]
  }

  /** Every item belongs to exactly one of the four categories. */
  lemma {:induction false} CountsPartition(items: seq<FaqItem>)
    ensures |WithCategory(items, "pricing")| + |WithCategory(items, "features")|
          + |WithCategory(items, "billing")| + |WithCategory(items, "support")| == |items|
  {
    if items != [] {
      CountsPartition(items[1..]);
    }
  }

  /** `toggleItem`: copy the open set, then delete the id if present or add it if absent. */
  function ToggleItem(openItems: set<string>, itemId: string): (r: set<string>)
    ensures itemId in r <==> itemId !in openItems
    ensures forall x | x != itemId :: x in r <==> x in openItems
  {
    var newSet := openItems;
    if itemId in newSet then newSet - {itemId} else newSet + {itemId}
  }

  lemma ToggleItemTwice(openItems: set<string>, itemId: string)
    ensures ToggleItem(ToggleItem(openItems, itemId), itemId) == openItems
  {
  }

  /** Openness is set membership, so opening one answer does not close another. */
  lemma SeveralOpen(openItems: set<string>, a: string, b: string)
    requires a != b && a !in openItems && b !in openItems
    ensures var r := ToggleItem(ToggleItem(openItems, a), b); a in r && b in r
  {
  }
}
