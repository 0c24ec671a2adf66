/**
 * How an autocomplete suggestion is shown: the first case-insensitive
 * occurrence of the query is highlighted, and a suggestion longer than
 * twenty characters is shortened with an ellipsis.
 */
module AutoCompleteView {
  import opened Wrappers
  import opened JavaText
  import WM = WordMatcher

  const MAX_UNELLIPSIZED: int := 20
  const ELLIPSIS: char := '…'

  /** Comparing lower-cased copies at a position is a case-insensitive region match. */
  lemma LowerOccurrenceIsRegionMatch(s: String, q: String, i: int)
    ensures OccursAt(ToLower(s), ToLower(q), i) <==> RegionMatchesIgnoreCase(s, i, q)
  {
    if 0 <= i && i + |q| <= |s| {
      if OccursAt(ToLower(s), ToLower(q), i) {
        forall k | 0 <= k < |q|
          ensures CharEqualsIgnoreCase(s[i + k], q[k])
        {
          assert ToLower(s)[i..i + |q|][k] == ToLower(q)[k];
        }
      }
      if RegionMatchesIgnoreCase(s, i, q) {
        assert ToLower(s)[i..i + |q|] == ToLower(q) by {
          forall k | 0 <= k < |q|
            ensures ToLower(s)[i..i + |q|][k] == ToLower(q)[k]
          {
            assert CharEqualsIgnoreCase(s[i + k], q[k]);
          }
        }
      }
    }
  }

  /**
   * The bold, coloured span of `onBind`: from the first index where the
   * lower-cased query occurs in the lower-cased name, as long as the query.
   */
  function Highlight(name: String, query: String): (r: Option<WM.Span>)
    ensures r.Some? ==> r.value.end == r.value.start + |query| && RegionMatchesIgnoreCase(name, r.value.start, query)
    ensures r.Some? ==> forall i :: 0 <= i < r.value.start ==> !RegionMatchesIgnoreCase(name, i, query)
    ensures r.None? <==> forall i :: 0 <= i <= |name| ==> !RegionMatchesIgnoreCase(name, i, query)
  {
    var index := IndexOf(ToLower(name), ToLower(query));
    forall i | 0 <= i <= |name|
      ensures OccursAt(ToLower(name), ToLower(query), i) <==> RegionMatchesIgnoreCase(name, i, query)
    {
      LowerOccurrenceIsRegionMatch(name, query, i);
    }
    if index >= 0 then Some(WM.Span(index, index + |query|)) else None
  }

  /**
   * `maybeEllipsize`: short text is kept; otherwise the first case-sensitive
   * occurrence of the query becomes "…" (the three position cases of the
   * source do the same replacement), or, when the query does not occur, the
   * text is cut to nineteen characters and "…" appended.
   */
  function Ellipsize(text: String, query: String): (r: String)
    ensures |text| <= MAX_UNELLIPSIZED ==> r == text
    ensures |text| > MAX_UNELLIPSIZED && IndexOf(text, query) < 0 ==> |r| == MAX_UNELLIPSIZED && r == text[..19] + [ELLIPSIS]
    ensures |text| > MAX_UNELLIPSIZED && IndexOf(text, query) >= 0 ==> |r| == |text| - |query| + 1
  {
    if |text| <= MAX_UNELLIPSIZED then text
    else
      var index := IndexOf(text, query);
      if index < 0 then text[..19] + [ELLIPSIS]
      else text[..index] + [ELLIPSIS] + text[index + |query|..]
  }

  /**
   * Putting the query back in place of the ellipsis restores the text: the
   * shortening removes exactly the first occurrence of the query and nothing else.
   */
  lemma EllipsizeRemovesOneOccurrence(text: String, query: String)
    requires |text| > MAX_UNELLIPSIZED && IndexOf(text, query) >= 0
    ensures var i := IndexOf(text, query);
            var r := Ellipsize(text, query);
            i < |r| && r[i] == ELLIPSIS && r[..i] + query + r[i + 1..] == text
  {
    var i := IndexOf(text, query);
    SpliceRestores(text, i, query);
  }

  lemma SpliceRestores(text: String, i: int, query: String)
    requires OccursAt(text, query, i)
    ensures var r := text[..i] + [ELLIPSIS] + text[i + |query|..];
            i < |r| && r[i] == ELLIPSIS && r[..i] + query + r[i + 1..] == text
  {
    var before, after := text[..i], text[i + |query|..];
    var r := before + [ELLIPSIS] + after;
    assert r[..i] == before;
    assert r[i + 1..] == after;
    assert text == before + text[i..i + |query|] + after;
  }

  /** A long text lacking the query always fits in twenty characters and keeps its first nineteen. */
  lemma EllipsizeFallbackFits(text: String, query: String)
    requires |text| > MAX_UNELLIPSIZED && IndexOf(text, query) < 0
    ensures Ellipsize(text, query)[..19] == text[..19] && |Ellipsize(text, query)| <= MAX_UNELLIPSIZED
  {
  }

  /** An empty query occurs at 0, so "…" is inserted in front and a long text grows by one. */
  lemma EmptyQueryGrowsText(text: String)
    requires |text| > MAX_UNELLIPSIZED
    ensures Ellipsize(text, "") == [ELLIPSIS] + text
  {
    assert OccursAt(text, "", 0);
    assert text[0..] == text;
  }
}
