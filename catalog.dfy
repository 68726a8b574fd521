/** The fixed catalog of editable data files (`FILES` in docs/js/admin.js),
    grouped into the two categories of the admin panel's category tabs. */
module Catalog {

  datatype Category = Research | Living

  /** One editable file: the tab's id, its label (`label` of `FILES` in docs/js/admin.js,
      renamed because `label` is a Dafny keyword) and the repository path. */
  datatype CatalogEntry = CatalogEntry(id: string, tabLabel: string, path: string)

  function Files(category: Category): (files: seq<CatalogEntry>)
    ensures |files| == 6
  {
    match category
    case Research => [
      CatalogEntry("household", "가계조사", "docs/data/household.json"),
      CatalogEntry("wages", "임금", "docs/data/wages.json"),
      CatalogEntry("cities", "도시별", "docs/data/cities.json"),
      CatalogEntry("budget", "예산", "docs/data/budget.json"),
      CatalogEntry("cpi", "CPI", "docs/data/cpi.json"),
      CatalogEntry("insights", "인사이트", "docs/data/insights.json")
    ]
    case Living => [
      CatalogEntry("rent", "렌트/주거", "docs/data/living/rent.json"),
      CatalogEntry("food", "음식", "docs/data/living/food.json"),
      CatalogEntry("utilities", "유틸리티", "docs/data/living/utilities.json"),
      CatalogEntry("banking", "은행/금융", "docs/data/living/banking.json"),
      CatalogEntry("insurance", "보험/의료", "docs/data/living/insurance.json"),
      CatalogEntry("transport", "교통", "docs/data/living/transport.json")
    ]
  }

  /** Within a category the tab ids are distinct, so a tab names one file. */
  lemma FileIdsDistinct(category: Category)
    ensures forall i, j :: 0 <= i < j < |Files(category)| ==> Files(category)[i].id != Files(category)[j].id
  {
  }
}
