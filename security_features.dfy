/**
 * The security feature grid: category tabs with counts, the filtered list,
 * and a single expanded card.
 */
module SecurityFeatures {

  import opened Wrappers
  import opened ListFilter

  /** The four values of the feature's category union type. */
  datatype Category = Encryption | Access | Compliance | Infrastructure

  function CategoryId(c: Category): string {
    match c
    case Encryption => "encryption"
    case Access => "access"
    case Compliance => "compliance"
    case Infrastructure => "infrastructure"
  }

  /** A feature card; title, description, details, icon and highlight are display-only and omitted. */
  datatype SecurityFeature = SecurityFeature(id: string, category: Category)

  datatype CategoryTab = CategoryTab(id: string, name: string, count: nat)

  /** `securityFeatures.filter(f => f.category === id)`. */
  function WithCategory(features: seq<SecurityFeature>, id: string): seq<SecurityFeature> {
    Filter(features, (f: SecurityFeature) => CategoryId(f.category) == id)
  }

  /** `filteredFeatures`: everything for `'all'`, otherwise the features of the selected category. */
  function FilteredFeatures(features: seq<SecurityFeature>, activeCategory: string): (r: seq<SecurityFeature>)
    ensures activeCategory == "all" ==> r == features
    ensures activeCategory != "all" ==>
      (forall i | 0 <= i < |r| :: r[i] in features && CategoryId(r[i].category) == activeCategory) &&
      (forall i | 0 <= i < |features| :: CategoryId(features[i].category) == activeCategory ==> features[i] in r)
  {
    if activeCategory == "all" then features else WithCategory(features, activeCategory)
  }

  function Categories(features: seq<SecurityFeature>): (tabs: seq<CategoryTab>)
    ensures |tabs| == 5
    ensures forall k | 0 <= k < 5 :: tabs[k].count == |FilteredFeatures(features, tabs[k].id)|
    ensures tabs[0].count == tabs[1].count + tabs[2].count + tabs[3].count + tabs[4].count
  {
    CountsPartition(features);
    [ CategoryTab("all", "All Features", |features|),
      CategoryTab("encryption", "Encryption", |WithCategory(features, "encryption")|),
      CategoryTab("access", "Access Control", |WithCategory(features, "access")|),
      CategoryTab("compliance", "Compliance", |WithCategory(features, "compliance")|),
      CategoryTab("infrastructure", "Infrastructure", |WithCategory(features, "infrastructure")|) ]
  }

  lemma {:induction false} CountsPartition(features: seq<SecurityFeature>)
    ensures |WithCategory(features, "encryption")| + |WithCategory(features, "access")|
          + |WithCategory(features, "compliance")| + |WithCategory(features, "infrastructure")| == |features|
  {
    if features != [] {
      CountsPartition(features[1..]);
    }
  }

  /** `toggleFeature`: collapse the expanded card, or make another card the only expanded one. */
  function ToggleFeature(expanded: Option<string>, featureId: string): (r: Option<string>)
    ensures expanded == Some(featureId) ==> r == None
    ensures expanded != Some(featureId) ==> r == Some(featureId)
  {
    if expanded == Some(featureId) then None else Some(featureId)
  }

  /** `isExpanded` for one card. */
  predicate IsExpanded(expanded: Option<string>, f: SecurityFeature) {
    expanded == Some(f.id)
  }

  /** The ids of the expanded cards among those shown. */
  function ExpandedIds(expanded: Option<string>, shown: seq<SecurityFeature>): (ids: set<string>)
    ensures |ids| <= 1
    ensures forall i | 0 <= i < |shown| :: IsExpanded(expanded, shown[i]) <==> shown[i].id in ids
  {
    var ids := set i | 0 <= i < |shown| && IsExpanded(expanded, shown[i]) :: shown[i].id;
    assert expanded.Some? ==> ids <= {expanded.value};
    assert ids == {} || (expanded.Some? && ids == {expanded.value});
    ids
  }

  /** Opening another card replaces the expanded one; toggling the same card twice restores a collapsed state. */
  lemma ToggleTwoFeatures(expanded: Option<string>, a: string, b: string)
    requires a != b
    ensures ToggleFeature(ToggleFeature(expanded, a), b) == Some(b)
    ensures ToggleFeature(ToggleFeature(expanded, a), a) == (if expanded == Some(a) then Some(a) else None)
  {
  }
}
