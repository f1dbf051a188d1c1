/**
 * The detailed feature grid: category tabs with counts, the filtered list,
 * per-card bullet truncation with a "+N more" line, and the category label.
 */
module FeatureGrid {

  import opened Wrappers
  import opened Text
  import opened ListFilter

  /** A feature card; icon, title, description and screenshot are display-only and omitted. */
  datatype DetailedFeature = DetailedFeature(id: string, category: string, features: seq<string>, comingSoon: bool)

  datatype CategoryTab = CategoryTab(id: string, name: string, count: nat)

  /** `features.filter(f => f.category === id)`. */
  function WithCategory(features: seq<DetailedFeature>, id: string): seq<DetailedFeature> {
    Filter(features, (f: DetailedFeature) => f.category == id)
  }

  /** `filteredFeatures`: everything for `'all'`, otherwise the features of the selected category. */
  function FilteredFeatures(features: seq<DetailedFeature>, selectedCategory: string): (r: seq<DetailedFeature>)
    ensures selectedCategory == "all" ==> r == features
    ensures selectedCategory != "all" ==>
      (forall i | 0 <= i < |r| :: r[i] in features && r[i].category == selectedCategory) &&
      (forall i | 0 <= i < |features| :: features[i].category == selectedCategory ==> features[i] in r)
  {
    if selectedCategory == "all" then features else WithCategory(features, selectedCategory)
  }

  /** The eight tabs, each with the length of the list it selects. */
  function Categories(features: seq<DetailedFeature>): (tabs: seq<CategoryTab>)
    ensures |tabs| == 8
    ensures forall k | 0 <= k < 8 :: tabs[k].count == |FilteredFeatures(features, tabs[k].id)|
  {
    [ CategoryTab("all", "All Features", |features|),
      CategoryTab("documentation", "Documentation", |WithCategory(features, "documentation")|),
      CategoryTab("client-management", "Client Management", |WithCategory(features, "client-management")|),
      CategoryTab("scheduling", "Scheduling", |WithCategory(features, "scheduling")|),
      CategoryTab("billing", "Billing", |WithCategory(features, "billing")|),
      CategoryTab("telehealth", "Telehealth", |WithCategory(features, "telehealth")|),
      CategoryTab("analytics", "Analytics", |WithCategory(features, "analytics")|),
      CategoryTab("mobile", "Mobile", |WithCategory(features, "mobile")|) ]
  }

  /** `feature.features.slice(0, 4)`: the bullets listed on a card. */
  function ShownBullets(bullets: seq<string>): (r: seq<string>)
    ensures |r| == if |bullets| < 4 then |bullets| else 4
    ensures r <= bullets
  {
    if |bullets| <= 4 then bullets else bullets[..4]
  }

  /** The "+N more features" line: present only for more than four bullets. */
  function MoreCount(bullets: seq<string>): (more: Option<nat>)
    ensures more.Some? <==> |bullets| > 4
  {
    if |bullets| > 4 then Some(|bullets| - 4) else None
  }

  /** Shown bullets plus the "+N" figure account for every bullet exactly once. */
  lemma CardAccountsForAllBullets(bullets: seq<string>)
    ensures |ShownBullets(bullets)| + MoreCount(bullets).GetOr(0) == |bullets|
    ensures MoreCount(bullets).Some? ==> bullets == ShownBullets(bullets) + bullets[4..]
  {
  }

  /** `category.replace('-', ' ')`: a string pattern replaces only its first occurrence. */
  function ReplaceFirst(s: string, from: char, to: char): (r: string)
    ensures |r| == |s|
    ensures from !in s ==> r == s
    ensures from in s ==> r[IndexOf(s, from)] == to
    ensures forall j | 0 <= j < |s| && j != IndexOf(s, from) :: r[j] == s[j]
  {
    var k := IndexOf(s, from);
    if k < 0 then s else s[..k] + [to] + s[k + 1..]
  }

  /** The label under a card title. */
  function CategoryLabel(category: string): string {
    ReplaceFirst(category, '-', ' ')
  }

  /** Only the first hyphen becomes a space. */
  lemma CategoryLabelExample(category: string)
    requires category == "client-management"
    ensures CategoryLabel(category) == "client management"
  {
    IndexOfAt(category, '-', 6);
    assert CategoryLabel(category) == category[..6] + [' '] + category[7..];
    ClientManagementSpelling(category, "client management");
  }

  lemma ClientManagementSpelling(category: string, spelled: string)
    requires category == "client-management" && spelled == "client management"
    ensures category[..6] + [' '] + category[7..] == spelled
  {
  }
}
