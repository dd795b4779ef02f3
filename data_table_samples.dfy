/**
 * The table's built-in sample rows as a fixture, and the paging and search
 * behaviour they show.
 */
module DataTableSamples {
  import opened Text
  import opened DataTable

  function Person(id: string, name: string, email: string, phone: string, title: string,
                  status: string, statusClass: string): Row
  {
    [("id", id), ("name", name), ("email", email), ("phone", phone), ("title", title),
     ("status", status), ("statusClass", statusClass)]
  }

  /** The eight sample rows the component ships with. */
  function SampleData(): (rows: seq<Row>)
    ensures |rows| == 8
    ensures |rows[0]| == 7 && rows[0][2] == ("email", "yamada.taro@example.com")
  {
    [ Person("1", "山田 太郎", "yamada.taro@example.com", "03-1234-5678", "営業部長", "アクティブ", "slds-text-color_success"),
      Person("2", "佐藤 花子", "sato.hanako@example.com", "03-2345-6789", "マーケティングマネージャー", "アクティブ", "slds-text-color_success"),
      Person("3", "鈴木 一郎", "suzuki.ichiro@example.com", "03-3456-7890", "エンジニア", "休暇中", "slds-text-color_default"),
      Person("4", "田中 美咲", "tanaka.misaki@example.com", "03-4567-8901", "デザイナー", "アクティブ", "slds-text-color_success"),
      Person("5", "高橋 健太", "takahashi.kenta@example.com", "03-5678-9012", "プロダクトマネージャー", "非アクティブ", "slds-text-color_error"),
      Person("6", "伊藤 さくら", "ito.sakura@example.com", "03-6789-0123", "人事担当", "アクティブ", "slds-text-color_success"),
      Person("7", "渡辺 大輔", "watanabe.daisuke@example.com", "03-7890-1234", "財務担当", "アクティブ", "slds-text-color_success"),
      Person("8", "中村 愛", "nakamura.ai@example.com", "03-8901-2345", "カスタマーサポート", "休暇中", "slds-text-color_default") ]
  }

  /** Eight rows at five per page: two pages, the second holding rows 6 to 8. */
  lemma EightRowsTwoPages(rows: seq<Row>)
    requires |rows| == 8
    ensures PageCount(|rows|, 5) == 2
    ensures Page(rows, 1, 5) == rows[..5] && Page(rows, 2, 5) == rows[5..]
    ensures Info(2, 5, |rows|) == PageInfo(6, 8, 8)
    ensures InfoText(Info(2, 5, |rows|)) == "6 - 8 件 / 全 8 件"
  {
  }

  /**
   * The search is case-insensitive: "Taro" finds a row whose e-mail is
   * "yamada.taro@example.com", such as the first sample row.
   */
  lemma SearchFindsTaro(row: Row)
    requires |row| > 2 && row[2].1 == "yamada.taro@example.com"
    ensures Keeps(row, "Taro")
  {
    var email := row[2].1;
    assert ToLower("Taro") == "taro";
    assert ToLower(email) == email;
    assert OccursAt(email, "taro", 7);
    ContainsIff(email, "taro");
  }

  /** Keys compare as text: "10" sorts before "9". */
  lemma NumbersSortAsText()
    ensures StrLess("10", "9")
  {
  }

  /** Loading a table of eight rows, such as the samples, and going to the next page shows rows 6 to 8. */
  method PagingScenario(rows: seq<Row>) returns (text: string, shown: seq<Row>)
    requires |rows| == 8
    ensures text == "6 - 8 件 / 全 8 件"
    ensures shown == rows[5..]
  {
    EightRowsTwoPages(rows);
    var table := new DataTable(rows);
    table.LoadData();
    table.HandleNext();
    text := table.PaginationText();
    shown := table.data;
  }

  /** The sample rows: "Taro" keeps the first one. */
  lemma SampleSearchFindsTaro()
    ensures Keeps(SampleData()[0], "Taro")
  {
    SearchFindsTaro(SampleData()[0]);
  }

  /** The sample table, loaded and moved to its second page, shows the last three samples. */
  method SamplePaging() returns (text: string, shown: seq<Row>)
    ensures text == "6 - 8 件 / 全 8 件"
    ensures shown == SampleData()[5..]
  {
    text, shown := PagingScenario(SampleData());
  }
}
