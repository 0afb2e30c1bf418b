/** Worked examples on a three-record catalog. */
module Scenarios {
  import opened Wrappers
  import opened Records
  import opened Search
  import Strings

  function Entry(n: int, name: string, category: string): Record {
    Record(NumberId(n), Some(name), None, None, Some(category), None)
  }

  function Catalog(): seq<Record> {
    [Entry(1, "Alpha", "Tool"), Entry(2, "Beta", "Tool"), Entry(3, "Gamma", "Game")]
  }

  /** The category restriction alone, applied to the whole catalog. */
  lemma {:induction false} GamesOfCatalog()
    ensures RestrictCategory(Catalog(), true, "Game") == [Entry(3, "Gamma", "Game")]
  {
    var db := Catalog();
    assert db[1..][1..][1..] == [];
    assert !InCategory(db[0], "Game") && !InCategory(db[1], "Game") && InCategory(db[2], "Game");
    assert RestrictCategory(db[1..][1..], true, "Game") == [db[2]];
    assert RestrictCategory(db[1..], true, "Game") == [db[2]];
  }

  /** Category "Game" with an empty query leaves only the third record. */
  lemma GameCategoryOnly()
    ensures HandleSearch(Catalog(), "", true, "Game", false, None) == [Entry(3, "Gamma", "Game")]
  {
    assert Strings.LeadingSpaces("") == 0;
    assert QueryTerm("") == "";
    GamesOfCatalog();
  }

  /** The query "  Alp " is trimmed and lowercased to "alp". */
  lemma PaddedAlpTerm()
    ensures QueryTerm("  Alp ") == "alp"
  {
    var input := "  Alp ";
    assert Strings.LeadingSpaces(input[2..]) == 0;
    assert Strings.LeadingSpaces(input) == 2;
    assert input[2..] == "Alp ";
    assert Strings.TrailingSpaces("Alp "[..3]) == 0;
    assert Strings.TrailingSpaces("Alp ") == 1;
    assert Strings.Trim(input) == "Alp";
  }

  /** "Alpha", lowercased, starts with "alp", and its category is "Tool". */
  lemma AlphaContainsAlp()
    ensures TextContains(Entry(1, "Alpha", "Tool"), "alp")
    ensures GroupKey(Entry(1, "Alpha", "Tool")) == "Tool"
  {
    assert Strings.Lower("Alpha") == "alpha";
    assert Strings.StartsWith("alpha", "alp");
  }

  /** Without an index, "  Alp " finds the first record, which is shown under "Tool". */
  lemma AlpFindsAlpha()
    ensures var r := HandleSearch(Catalog(), "  Alp ", false, "", false, None);
            Entry(1, "Alpha", "Tool") in r && GroupKey(Entry(1, "Alpha", "Tool")) == "Tool"
  {
    var alpha := Entry(1, "Alpha", "Tool");
    assert alpha in Catalog();
    PaddedAlpTerm();
    AlphaContainsAlp();
    SubstringMode(Catalog(), "  Alp ", alpha);
  }
}
