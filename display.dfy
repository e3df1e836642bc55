/** The results table of displayResults: one numbered row per result, with
    URLs too wide for the column cut down and marked with an ellipsis. */
module Display {

  /** The widest URL shown in full. */
  const MAX_WIDTH: nat := 68
  /** How much of a wider URL is kept before the ellipsis. */
  const KEPT: nat := 65
  const ELLIPSIS: string := "..."

  /** A URL as its row shows it: unchanged when it fits, else its first 65
      characters followed by "...", which makes exactly 68. */
  function Shorten(url: string): (shown: string)
    ensures |shown| == if |url| <= MAX_WIDTH then |url| else MAX_WIDTH
    ensures |url| <= MAX_WIDTH ==> shown == url
    ensures |url| > MAX_WIDTH ==> shown[..KEPT] == url[..KEPT] && shown[KEPT..] == ELLIPSIS
  {
    if |url| > MAX_WIDTH then url[..KEPT] + ELLIPSIS else url
  }

  /** Every shown URL fits the column, and only a URL that does not fit is changed. */
  lemma ShortenFits(url: string)
    ensures |Shorten(url)| <= MAX_WIDTH
    ensures Shorten(url) == url <==> |url| <= MAX_WIDTH
  {
    if |url| > MAX_WIDTH {
      assert |Shorten(url)| != |url|;
    }
  }

  /** Shortening a shown URL again changes nothing. */
  lemma ShortenIdempotent(url: string)
    ensures Shorten(Shorten(url)) == Shorten(url)
  {
    ShortenFits(url);
  }

  /** One printed row: the 1-based position and the URL as shown. */
  datatype Row = Row(id: int, url: string)

  /** The loop of displayResults: number the results from 1 in order and
      shorten each URL. */
  method DisplayResults(results: seq<string>) returns (rows: seq<Row>)
    ensures |rows| == |results|
    ensures forall i :: 0 <= i < |rows| ==> rows[i].id == i + 1
    ensures forall i :: 0 <= i < |rows| ==> rows[i].url == Shorten(results[i])
  {
    rows := [];
    for i := 0 to |results|
      invariant |rows| == i
      invariant forall k :: 0 <= k < i ==> rows[k] == Row(k + 1, Shorten(results[k]))
    {
      var url := results[i];
      if |url| > 68 {
        url := url[..65] + "...";
      }
      rows := rows + [Row(i + 1, url)];
    }
  }
}
