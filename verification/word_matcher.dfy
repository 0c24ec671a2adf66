/**
 * WordMatcher: word-prefix matching with pluggable splitters.  A query
 * matches a text when it is a case-insensitive prefix of the text at
 * position 0 or at one of the positions a splitter marks as a word start.
 */
module WordMatcher {
  import opened Wrappers
  import opened JavaText
  import opened Seqs

  /** The five Splitter implementations. */
  datatype Splitter =
    | SpaceSplitter
    | CharSplitter(ch: char)
    | CaseSplitter(upper: bool)
    | NumberSplitter
    | NonLowerCaseSplitter

  predicate SplitsBy(sp: Splitter, c: char)
  {
    match sp
    case SpaceSplitter => IsWhitespace(c)
    case CharSplitter(x) => c == x
    case CaseSplitter(upper) => if upper then IsUpperCase(c) else IsLowerCase(c)
    case NumberSplitter => IsDigit(c)
    case NonLowerCaseSplitter => !IsLowerCase(c)
  }

  /** Where the next word starts relative to a split character: 1 skips it, 0 keeps it. */
  function SplitOffset(sp: Splitter, c: char): (r: int)
    ensures r == 0 || r == 1
  {
    match sp
    case SpaceSplitter => 1
    case NonLowerCaseSplitter => if IsLetterOrDigit(c) then 0 else 1
    case _ => 0
  }

  /** Split position `i` yields word start `k`. */
  predicate WordStartAt(text: String, sp: Splitter, i: int, k: int)
  {
    0 <= i < |text| && SplitsBy(sp, text[i]) && k == i + SplitOffset(sp, text[i])
  }

  /** A word start: position 0, or a split position plus its offset. */
  ghost predicate IsCandidate(text: String, sp: Splitter, k: int)
  {
    k == 0 || exists i :: WordStartAt(text, sp, i, k)
  }

  /** The query region-matches at the word start of split position `i`. */
  predicate SplitMatch(text: String, query: String, sp: Splitter, i: int)
  {
    0 <= i < |text| && SplitsBy(sp, text[i]) && RegionMatchesIgnoreCase(text, i + SplitOffset(sp, text[i]), query)
  }

  /**
   * The loop of `find` once the first candidate (0) has failed: visits split
   * positions from `from` upwards and returns the first word start at which
   * the query region-matches.  Word starts never decrease along the scan,
   * so the first one found is also the least.
   */
  function FindAfter(text: String, query: String, sp: Splitter, from: nat): (r: int)
    requires from <= |text|
    ensures r == -1 || exists i :: from <= i && SplitMatch(text, query, sp, i) && r == i + SplitOffset(sp, text[i])
    ensures r == -1 <==> forall i :: from <= i ==> !SplitMatch(text, query, sp, i)
    ensures r >= 0 ==> forall i :: from <= i && SplitMatch(text, query, sp, i) ==> r <= i + SplitOffset(sp, text[i])
    decreases |text| - from
  {
    if from == |text| then -1
    else if SplitMatch(text, query, sp, from) then from + SplitOffset(sp, text[from])
    else FindAfter(text, query, sp, from + 1)
  }

  /** `find`: -1, or a position at which the query region-matches ignoring case. */
  function Find(text: String, query: String, sp: Splitter): (r: int)
    ensures r == -1 || RegionMatchesIgnoreCase(text, r, query)
  {
    if RegionMatchesIgnoreCase(text, 0, query) then 0 else FindAfter(text, query, sp, 0)
  }

  /**
   * `find` returns the least word start at which the query region-matches,
   * and -1 exactly when there is none.
   */
  lemma FindIsLeastMatchingWordStart(text: String, query: String, sp: Splitter)
    ensures Find(text, query, sp) >= 0 ==> IsCandidate(text, sp, Find(text, query, sp))
    ensures Find(text, query, sp) == -1 <==> forall k :: IsCandidate(text, sp, k) ==> !RegionMatchesIgnoreCase(text, k, query)
    ensures Find(text, query, sp) >= 0 ==>
            forall k :: IsCandidate(text, sp, k) && RegionMatchesIgnoreCase(text, k, query) ==> Find(text, query, sp) <= k
  {
    FindIsCandidate(text, query, sp);
    forall k | IsCandidate(text, sp, k) && RegionMatchesIgnoreCase(text, k, query)
      ensures 0 <= Find(text, query, sp) <= k
    {
      CandidateMatchFound(text, query, sp, k);
    }
  }

  /** A position `find` returns is a word start. */
  lemma FindIsCandidate(text: String, query: String, sp: Splitter)
    ensures Find(text, query, sp) >= 0 ==> IsCandidate(text, sp, Find(text, query, sp))
  {
    var r := Find(text, query, sp);
    if r > 0 {
      var i :| 0 <= i && SplitMatch(text, query, sp, i) && r == i + SplitOffset(sp, text[i]);
      assert WordStartAt(text, sp, i, r);
    }
  }

  /** A matching word start bounds what `find` returns. */
  lemma CandidateMatchFound(text: String, query: String, sp: Splitter, k: int)
    requires IsCandidate(text, sp, k) && RegionMatchesIgnoreCase(text, k, query)
    ensures 0 <= Find(text, query, sp) <= k
  {
    if k != 0 {
      var i :| WordStartAt(text, sp, i, k);
      assert SplitMatch(text, query, sp, i);
    }
  }

  /** The scan from the end of `containsIgnoreCase`, from offset `i` down to 0. */
  function ContainsFrom(text: String, m: String, i: int): (r: bool)
    ensures r <==> exists k :: 0 <= k <= i && RegionMatchesIgnoreCase(text, k, m)
    decreases i + 1
  {
    if i < 0 then false
    else if RegionMatchesIgnoreCase(text, i, m) then true
    else ContainsFrom(text, m, i - 1)
  }

  /** `containsIgnoreCase`: the match occurs somewhere in the text, ignoring case. */
  function ContainsIgnoreCase(text: String, m: String): (r: bool)
    ensures r <==> exists k :: RegionMatchesIgnoreCase(text, k, m)
  {
    if |m| == 0 then assert RegionMatchesIgnoreCase(text, 0, m); true
    else ContainsFrom(text, m, |text| - |m|)
  }

  /**
   * The index of the first splitter, from `from` on, whose `find` succeeds,
   * or |splitters| when none does: the order in which `matches` and
   * `decorate` try the splitters.
   */
  function FirstFinder(text: String, query: String, splitters: seq<Splitter>, from: nat): (r: nat)
    requires from <= |splitters|
    ensures from <= r <= |splitters|
    ensures forall j :: from <= j < r ==> Find(text, query, splitters[j]) == -1
    ensures r < |splitters| ==> Find(text, query, splitters[r]) >= 0
  {
    FirstIndex(splitters, Finds(text, query), from)
  }

  /** Whether a splitter's `find` succeeds on the text. */
  function Finds(text: String, query: String): Splitter -> bool
  {
    sp => Find(text, query, sp) >= 0
  }

  datatype Matcher = Matcher(splitters: seq<Splitter>)

  /** The no-argument constructor: a single whitespace splitter. */
  function DefaultMatcher(): (m: Matcher)
    ensures m.splitters == [SpaceSplitter]
  {
    Matcher([SpaceSplitter])
  }

  /**
   * `matches`: false for an empty text or query and when the text does not
   * contain the query; otherwise true when some splitter finds a word start.
   * The containment test is an early exit only: a word-start match already
   * implies containment.
   */
  function Matches(m: Matcher, text: String, query: String): (r: bool)
    ensures r ==> |text| > 0 && |query| > 0
    ensures r ==> exists k :: RegionMatchesIgnoreCase(text, k, query)
    ensures r <==> |text| > 0 && |query| > 0
                   && exists j :: 0 <= j < |m.splitters| && Find(text, query, m.splitters[j]) >= 0
  {
    if |text| == 0 || |query| == 0 then false
    else if !ContainsIgnoreCase(text, query) then false
    else FirstFinder(text, query, m.splitters, 0) < |m.splitters|
  }

  /** The highlight span [start, end) that `decorate` would apply. */
  datatype Span = Span(start: int, end: int)

  /**
   * `decorate`: the span [i, i + |query|) for the first splitter that finds
   * i, and nothing (the view is left untouched) when there is no match.
   */
  function Decorate(m: Matcher, text: String, query: String): (r: Option<Span>)
    ensures r.Some? <==> Matches(m, text, query)
    ensures r.Some? ==> 0 <= r.value.start && r.value.end == r.value.start + |query| <= |text|
                        && RegionMatchesIgnoreCase(text, r.value.start, query)
    ensures r.Some? ==> exists j :: 0 <= j < |m.splitters| && r.value.start == Find(text, query, m.splitters[j])
                                    && forall j' :: 0 <= j' < j ==> Find(text, query, m.splitters[j']) == -1
  {
    if |text| == 0 || |query| == 0 then None
    else if !ContainsIgnoreCase(text, query) then None
    else
      var j := FirstFinder(text, query, m.splitters, 0);
      if j == |m.splitters| then None
      else
        var i := Find(text, query, m.splitters[j]);
        Some(Span(i, i + |query|))
  }

  /**
   * With the whitespace splitter a query matches exactly when it is a
   * case-insensitive prefix of the text, or of the text after some
   * whitespace character.
   */
  lemma SpaceMatcherCharacterization(text: String, query: String)
    ensures Matches(DefaultMatcher(), text, query) <==>
            |text| > 0 && |query| > 0
            && (RegionMatchesIgnoreCase(text, 0, query)
                || exists i :: 0 <= i < |text| && IsWhitespace(text[i]) && RegionMatchesIgnoreCase(text, i + 1, query))
  {
    var f := Find(text, query, SpaceSplitter);
    FindIsLeastMatchingWordStart(text, query, SpaceSplitter);
    assert Matches(DefaultMatcher(), text, query) <==> |text| > 0 && |query| > 0 && f >= 0;
    if f > 0 {
      var i :| WordStartAt(text, SpaceSplitter, i, f);
      assert IsWhitespace(text[i]) && RegionMatchesIgnoreCase(text, i + 1, query);
    }
    if exists i :: 0 <= i < |text| && IsWhitespace(text[i]) && RegionMatchesIgnoreCase(text, i + 1, query) {
      var i :| 0 <= i < |text| && IsWhitespace(text[i]) && RegionMatchesIgnoreCase(text, i + 1, query);
      assert WordStartAt(text, SpaceSplitter, i, i + 1);
    }
  }

  /**
   * The word starts of the non-lowercase splitter: position 0, every
   * non-lowercase letter or digit, and the position after every other
   * non-lowercase character.
   */
  lemma NonLowerCaseCandidates(text: String, k: int)
    ensures IsCandidate(text, NonLowerCaseSplitter, k) <==>
            k == 0
            || (0 <= k < |text| && !IsLowerCase(text[k]) && IsLetterOrDigit(text[k]))
            || (1 <= k <= |text| && !IsLowerCase(text[k - 1]) && !IsLetterOrDigit(text[k - 1]))
  {
    if IsCandidate(text, NonLowerCaseSplitter, k) && k != 0 {
      var i :| WordStartAt(text, NonLowerCaseSplitter, i, k);
      if IsLetterOrDigit(text[i]) { assert i == k; } else { assert i == k - 1; }
    }
    if 0 <= k < |text| && !IsLowerCase(text[k]) && IsLetterOrDigit(text[k]) {
      assert WordStartAt(text, NonLowerCaseSplitter, k, k);
    }
    if 1 <= k <= |text| && !IsLowerCase(text[k - 1]) && !IsLetterOrDigit(text[k - 1]) {
      assert WordStartAt(text, NonLowerCaseSplitter, k - 1, k);
    }
  }

  /** An empty text or query never matches, whatever the splitters. */
  lemma EmptyNeverMatches(m: Matcher, text: String, query: String)
    requires |text| == 0 || |query| == 0
    ensures !Matches(m, text, query)
    ensures Decorate(m, text, query).None?
  {
  }

  /** A match at the start of the text, for the whitespace matcher. */
  lemma MatchesAtStart(text: String, query: String)
    requires |text| > 0 && |query| > 0 && RegionMatchesIgnoreCase(text, 0, query)
    ensures Matches(DefaultMatcher(), text, query)
  {
    SpaceMatcherCharacterization(text, query);
  }

  /** A match right after a whitespace character, for the whitespace matcher. */
  lemma MatchesAfterSpace(text: String, query: String, i: int)
    requires 0 <= i < |text| && IsWhitespace(text[i]) && |query| > 0 && RegionMatchesIgnoreCase(text, i + 1, query)
    ensures Matches(DefaultMatcher(), text, query)
  {
    SpaceMatcherCharacterization(text, query);
  }

  /** No match at 0 and none after any whitespace: the whitespace matcher rejects. */
  lemma NoWordStartMatch(text: String, query: String)
    requires !RegionMatchesIgnoreCase(text, 0, query)
    requires forall i :: 0 <= i < |text| && IsWhitespace(text[i]) ==> !RegionMatchesIgnoreCase(text, i + 1, query)
    ensures !Matches(DefaultMatcher(), text, query)
  {
    SpaceMatcherCharacterization(text, query);
  }

  /** The documented examples for "John Mark Smith" under the default matcher. */
  lemma JohnMatchesJoh(t: String)
    requires t == "John Mark Smith"
    ensures Matches(DefaultMatcher(), t, "joh")
  {
    assert RegionMatchesIgnoreCase(t, 0, "joh");
    MatchesAtStart(t, "joh");
  }

  lemma JohnMatchesSmit(t: String)
    requires t == "John Mark Smith"
    ensures Matches(DefaultMatcher(), t, "smit")
  {
    assert t[9] == ' ' && t[10..14] == "Smit";
    assert RegionMatchesIgnoreCase(t, 10, "smit");
    MatchesAfterSpace(t, "smit", 9);
  }

  lemma JohnMatchesJohnMa(t: String)
    requires t == "John Mark Smith"
    ensures Matches(DefaultMatcher(), t, "john ma")
  {
    assert t[..7] == "John Ma";
    assert RegionMatchesIgnoreCase(t, 0, "john ma");
    MatchesAtStart(t, "john ma");
  }

  lemma JohnMatchesMarkSm(t: String)
    requires t == "John Mark Smith"
    ensures Matches(DefaultMatcher(), t, "mark sm")
  {
    assert t[4] == ' ' && t[5..12] == "Mark Sm";
    assert RegionMatchesIgnoreCase(t, 5, "mark sm");
    MatchesAfterSpace(t, "mark sm", 4);
  }

  lemma JohnMatchesJohnMarkSm(t: String)
    requires t == "John Mark Smith"
    ensures Matches(DefaultMatcher(), t, "john mark sm")
  {
    assert t[..12] == "John Mark Sm";
    assert RegionMatchesIgnoreCase(t, 0, "john mark sm");
    MatchesAtStart(t, "john mark sm");
  }

  /** "ohn" is inside the first word, not at a word start. */
  lemma JohnDoesNotMatchOhn(t: String)
    requires t == "John Mark Smith"
    ensures !Matches(DefaultMatcher(), t, "ohn")
  {
    assert !CharEqualsIgnoreCase(t[0 + 0], "ohn"[0]);
    forall i | 0 <= i < |t| && IsWhitespace(t[i])
      ensures !RegionMatchesIgnoreCase(t, i + 1, "ohn")
    {
      assert i == 4 || i == 9;
      assert !CharEqualsIgnoreCase(t[i + 1 + 0], "ohn"[0]);
    }
    NoWordStartMatch(t, "ohn");
  }
}
