/** Names of the monthly blobs: the bronze JSON dump one month's games are stored in, and
    the silver Parquet file the transform writes for the same month. */
module BlobNames {
  import opened Text

  /** `f"{year}-{int(month):02}"`. */
  function YearMonth(year: int, month: int): string {
    IntToString(year) + "-" + Pad2(month)
  }

  function BronzeBlobName(year: int, month: int): string
  {
    "bronze/" + YearMonth(year, month) + "-games.json"
  }

  function SilverBlobName(year: int, month: int): string
  {
    "silver/fact-" + YearMonth(year, month) + "-games.parquet"
  }

  /** Distinct months of non-negative years get distinct labels: the month is the last two
      characters, and the year is what precedes the dash before them. */
  lemma YearMonthInjective(y1: nat, m1: int, y2: nat, m2: int)
    requires 1 <= m1 <= 12 && 1 <= m2 <= 12
    requires YearMonth(y1, m1) == YearMonth(y2, m2)
    ensures y1 == y2 && m1 == m2
  {
    var s := YearMonth(y1, m1);
    var a, b := IntToString(y1) + "-", IntToString(y2) + "-";
    assert s == a + Pad2(m1) == b + Pad2(m2);
    assert s[|s| - 2..] == Pad2(m1);
    assert s[|s| - 2..] == Pad2(m2);
    assert s[..|s| - 3] == IntToString(y1);
    assert s[..|s| - 3] == IntToString(y2);
    NatToStringInjective(y1, y2);
  }

  /** Two months never share a bronze blob. */
  lemma BronzeBlobNameInjective(y1: nat, m1: int, y2: nat, m2: int)
    requires 1 <= m1 <= 12 && 1 <= m2 <= 12
    requires BronzeBlobName(y1, m1) == BronzeBlobName(y2, m2)
    ensures y1 == y2 && m1 == m2
  {
    var n := BronzeBlobName(y1, m1);
    var k := |n| - |"-games.json"|;
    assert n[7..k] == YearMonth(y1, m1);
    assert n[7..k] == YearMonth(y2, m2);
    YearMonthInjective(y1, m1, y2, m2);
  }

  /** Two months never share a silver blob. */
  lemma SilverBlobNameInjective(y1: nat, m1: int, y2: nat, m2: int)
    requires 1 <= m1 <= 12 && 1 <= m2 <= 12
    requires SilverBlobName(y1, m1) == SilverBlobName(y2, m2)
    ensures y1 == y2 && m1 == m2
  {
    var n := SilverBlobName(y1, m1);
    var k := |n| - |"-games.parquet"|;
    assert n[12..k] == YearMonth(y1, m1);
    assert n[12..k] == YearMonth(y2, m2);
    YearMonthInjective(y1, m1, y2, m2);
  }

  /** The transform never writes over a bronze blob. */
  lemma SilverIsNotBronze(y1: int, m1: int, y2: int, m2: int)
    ensures SilverBlobName(y1, m1) != BronzeBlobName(y2, m2)
  {
    assert SilverBlobName(y1, m1)[0] == 's' && BronzeBlobName(y2, m2)[0] == 'b';
  }

  /** The month in a name is zero-padded: January of 2024 is stored as `bronze/2024-01-games.json`. */
  lemma JanuaryIsPadded()
    ensures BronzeBlobName(2024, 1) == "bronze/2024-01-games.json"
  {
    assert NatToString(2024) == "2024" by {
      assert NatToString(2) == "2";
      assert NatToString(20) == "20";
      assert NatToString(202) == "202";
    }
  }
}
