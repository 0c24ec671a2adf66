/**
 * InAppSearchProvider: Branch app results split into sections (an
 * optional row of app filters, one section per install ad, one section per
 * organic app result), the adapters that consume the results in section
 * order, query validity, the installed-app filter and install-ad
 * recognition.
 */
module InAppSearch {
  import opened Wrappers
  import opened JavaText
  import opened Seqs
  import Sections

  const MIN_CHARS: int := 3
  const SECTION_TYPE_APP: int := 0
  const SECTION_TYPE_FILTERS: int := 1
  const SECTION_TYPE_INSTALL_AD: int := 2
  /** The ranking hint that marks a sponsored result, compared ignoring case. */
  const RANKING_HINT: String := "featured"

  datatype LinkResult = LinkResult(rankingHint: String, webLink: String)
  datatype AppResult = AppResult(packageName: String, rankingHint: String, deepLinks: seq<LinkResult>)

  datatype Options = Options(maxAppResults: int, maxContentPerAppResults: int, filtersEnabled: bool)

  function DefaultOptions(): Options
  {
    Options(10, 5, true)
  }

  predicate IsInstallAd(a: AppResult)
  {
    EqualsIgnoreCase(RANKING_HINT, a.rankingHint)
  }

  predicate IsInstallAdLink(l: LinkResult)
  {
    EqualsIgnoreCase(RANKING_HINT, l.rankingHint)
  }

  // ---------------------------------------------------------------- install ads

  datatype InstallAd = InstallAd(appResult: AppResult, linkResult: LinkResult)

  function FirstFeaturedLink(links: seq<LinkResult>): (r: Option<nat>)
    ensures r.None? <==> forall i :: 0 <= i < |links| ==> !IsInstallAdLink(links[i])
    ensures r.Some? ==> r.value < |links| && IsInstallAdLink(links[r.value])
                        && forall i :: 0 <= i < r.value ==> !IsInstallAdLink(links[i])
  {
    if |links| == 0 then None
    else if IsInstallAdLink(links[0]) then Some(0)
    else
      match FirstFeaturedLink(links[1..])
      case None => None
      case Some(i) => Some(i + 1)
  }

  /**
   * The InAppInstallAd constructor: the app result must be an install ad
   * and must carry a featured link; the first featured link is chosen.
   */
  function MakeInstallAd(app: AppResult): (r: Outcome<InstallAd>)
    ensures r.Ok? <==> IsInstallAd(app) && exists i :: 0 <= i < |app.deepLinks| && IsInstallAdLink(app.deepLinks[i])
    ensures r.Thrown? ==> r.error == IllegalArgument
    ensures r.Ok? ==> r.value.appResult == app && IsInstallAdLink(r.value.linkResult)
                      && exists i :: 0 <= i < |app.deepLinks| && app.deepLinks[i] == r.value.linkResult
                                     && forall k :: 0 <= k < i ==> !IsInstallAdLink(app.deepLinks[k])
  {
    if !IsInstallAd(app) then Thrown(IllegalArgument)
    else
      match FirstFeaturedLink(app.deepLinks)
      case None => Thrown(IllegalArgument)
      case Some(i) => Ok(InstallAd(app, app.deepLinks[i]))
  }

  // ---------------------------------------------------------------- queries and loading

  /** The base Branch provider wants a non-empty query; this provider at least MIN_CHARS. */
  function IsQueryValid(query: String): (r: bool)
    ensures r <==> |query| >= MIN_CHARS
  {
    |query| != 0 && |query| >= MIN_CHARS
  }

  predicate ShouldShowAppResult(a: AppResult, showNonInstalled: bool, installed: set<String>)
  {
    showNonInstalled || a.packageName in installed
  }

  /** The results kept by `loadResults`, in order. */
  function FilterShown(results: seq<AppResult>, showNonInstalled: bool, installed: set<String>): (r: seq<AppResult>)
    ensures |r| <= |results|
    ensures forall i :: 0 <= i < |r| ==> r[i] in results && ShouldShowAppResult(r[i], showNonInstalled, installed)
    ensures forall i :: 0 <= i < |results| && ShouldShowAppResult(results[i], showNonInstalled, installed) ==> results[i] in r
    ensures showNonInstalled ==> r == results
  {
    if |results| == 0 then []
    else
      var rest := FilterShown(results[1..], showNonInstalled, installed);
      assert forall x :: x in results[1..] ==> x in results;
      if ShouldShowAppResult(results[0], showNonInstalled, installed) then [results[0]] + rest else rest
  }

  /** A search-service error surfaces as a RuntimeException from `loadResults`. */
  function LoadResults(response: Outcome<seq<AppResult>>, showNonInstalled: bool, installed: set<String>): (r: Outcome<seq<AppResult>>)
    ensures r.Thrown? <==> response.Thrown?
    ensures r.Thrown? ==> r.error == Runtime
    ensures r.Ok? ==> r.value == FilterShown(response.value, showNonInstalled, installed)
  {
    match response
    case Thrown(_) => Thrown(Runtime)
    case Ok(results) => Ok(FilterShown(results, showNonInstalled, installed))
  }

  // ---------------------------------------------------------------- counting ads

  function CountAds(s: seq<AppResult>): (r: nat)
    ensures r <= |s|
  {
    if |s| == 0 then 0 else (if IsInstallAd(s[0]) then 1 else 0) + CountAds(s[1..])
  }

  function NonAds(s: seq<AppResult>): (r: seq<AppResult>)
    ensures |r| + CountAds(s) == |s|
    ensures forall i :: 0 <= i < |r| ==> !IsInstallAd(r[i]) && r[i] in s
  {
    if |s| == 0 then []
    else
      var rest := NonAds(s[1..]);
      assert forall x :: x in s[1..] ==> x in s;
      if IsInstallAd(s[0]) then rest else [s[0]] + rest
  }

  function Occurrences(f: AppResult, s: seq<AppResult>): (r: nat)
    ensures r <= |s|
    ensures r == 0 <==> f !in s
  {
    if |s| == 0 then 0 else (if s[0] == f then 1 else 0) + Occurrences(f, s[1..])
  }

  lemma {:induction false} CountAdsAppend(a: seq<AppResult>, b: seq<AppResult>)
    ensures CountAds(a + b) == CountAds(a) + CountAds(b)
    ensures NonAds(a + b) == NonAds(a) + NonAds(b)
    ensures forall f :: Occurrences(f, a + b) == Occurrences(f, a) + Occurrences(f, b)
  {
    AdsAppend(a, b);
    NonAdsAppend(a, b);
    forall f {
      OccurrencesAppend(f, a, b);
    }
  }

  lemma {:induction false} AdsAppend(a: seq<AppResult>, b: seq<AppResult>)
    ensures CountAds(a + b) == CountAds(a) + CountAds(b)
    decreases |a|
  {
    if |a| == 0 {
      assert a + b == b;
    } else {
      assert (a + b)[0] == a[0] && (a + b)[1..] == a[1..] + b;
      AdsAppend(a[1..], b);
    }
  }

  lemma {:induction false} NonAdsAppend(a: seq<AppResult>, b: seq<AppResult>)
    ensures NonAds(a + b) == NonAds(a) + NonAds(b)
    decreases |a|
  {
    if |a| == 0 {
      assert a + b == b;
    } else {
      assert (a + b)[0] == a[0] && (a + b)[1..] == a[1..] + b;
      NonAdsAppend(a[1..], b);
    }
  }

  lemma {:induction false} OccurrencesAppend(f: AppResult, a: seq<AppResult>, b: seq<AppResult>)
    ensures Occurrences(f, a + b) == Occurrences(f, a) + Occurrences(f, b)
    decreases |a|
  {
    if |a| == 0 {
      assert a + b == b;
    } else {
      assert (a + b)[0] == a[0] && (a + b)[1..] == a[1..] + b;
      OccurrencesAppend(f, a[1..], b);
    }
  }

  /** No install ad follows an organic result. */
  predicate AdsFirst(s: seq<AppResult>)
  {
    forall i, j :: 0 <= i < j < |s| && IsInstallAd(s[j]) ==> IsInstallAd(s[i])
  }

  /** Install-ad recognition as a value, for the generic sequence lemmas. */
  function IsAd(): AppResult -> bool
  {
    a => IsInstallAd(a)
  }

  /** CountAds and NonAds are the generic count and complement filter for install ads. */
  lemma {:induction false} CountAdsIsCount(s: seq<AppResult>)
    ensures CountAds(s) == Count(s, IsAd())
    ensures NonAds(s) == Filter(s, Not(IsAd()))
    decreases |s|
  {
    if |s| > 0 {
      CountAdsIsCount(s[1..]);
    }
  }

  /** Results have their ads first exactly when the first CountAds of them are all ads. */
  lemma AdsFirstIffLeadingAds(s: seq<AppResult>)
    ensures AdsFirst(s) <==> forall i :: 0 <= i < CountAds(s) ==> IsInstallAd(s[i])
    ensures AdsFirst(s) ==> s[CountAds(s)..] == NonAds(s)
  {
    CountAdsIsCount(s);
    PartitionedIffAcceptedPrefix(s, IsAd());
    assert AdsFirst(s) <==> Partitioned(s, IsAd());
    assert AcceptedPrefix(s, IsAd()) <==> forall i :: 0 <= i < CountAds(s) ==> IsInstallAd(s[i]);
  }

  lemma {:induction false} NoAdsMeansAllNonAds(s: seq<AppResult>)
    ensures CountAds(s) == 0 <==> forall i :: 0 <= i < |s| ==> !IsInstallAd(s[i])
    ensures CountAds(s) == 0 ==> NonAds(s) == s
    decreases |s|
  {
    if |s| > 0 {
      var t := s[1..];
      NoAdsMeansAllNonAds(t);
      if CountAds(s) == 0 {
        assert !IsInstallAd(s[0]) && CountAds(t) == 0;
        forall i | 1 <= i < |s| ensures !IsInstallAd(s[i]) {
          assert s[i] == t[i - 1];
        }
      }
      if forall i :: 0 <= i < |s| ==> !IsInstallAd(s[i]) {
        forall j | 0 <= j < |t| ensures !IsInstallAd(t[j]) {
          assert t[j] == s[j + 1];
        }
      }
    }
  }

  // ---------------------------------------------------------------- section types

  function Repeat<X>(x: X, n: nat): (r: seq<X>)
    ensures |r| == n && forall i :: 0 <= i < n ==> r[i] == x
  {
    if n == 0 then [] else [x] + Repeat(x, n - 1)
  }

  /** One INSTALL_AD section per ad, in result order. */
  function AdTypes(s: seq<AppResult>): (r: seq<int>)
    ensures r == Repeat(SECTION_TYPE_INSTALL_AD, CountAds(s))
  {
    if |s| == 0 then []
    else (if IsInstallAd(s[0]) then [SECTION_TYPE_INSTALL_AD] else []) + AdTypes(s[1..])
  }

  /** One APP section per organic result that passes the filter. */
  function AppTypes(nonAds: seq<AppResult>, filter: Option<AppResult>): (r: seq<int>)
    ensures filter.None? ==> r == Repeat(SECTION_TYPE_APP, |nonAds|)
    ensures filter.Some? ==> r == Repeat(SECTION_TYPE_APP, Occurrences(filter.value, nonAds))
  {
    if |nonAds| == 0 then []
    else (if filter.None? || filter.value == nonAds[0] then [SECTION_TYPE_APP] else []) + AppTypes(nonAds[1..], filter)
  }

  datatype Computed = Computed(types: seq<int>, filter: Option<AppResult>)

  /** The filter row is shown when filters are enabled and there are at least two organic results. */
  function FilterHeader(filtersEnabled: bool, nonAds: seq<AppResult>): seq<int>
  {
    if filtersEnabled && |nonAds| > 1 then [SECTION_TYPE_FILTERS] else []
  }

  /**
   * `computeSections`, with the filter it leaves behind: no sections for
   * missing or empty results (the filter is then kept); otherwise the
   * filter is dropped when its app is not among the organic results.
   */
  function ComputeSections(latest: Option<seq<AppResult>>, filter: Option<AppResult>, filtersEnabled: bool): (r: Computed)
    ensures latest.None? || |latest.value| == 0 ==> r == Computed([], filter)
    ensures latest.Some? && |latest.value| > 0 ==>
              var nonAds := NonAds(latest.value);
              && (r.filter.Some? ==> r.filter == filter && filter.value in nonAds)
              && (filter.Some? && filter.value in nonAds ==> r.filter == filter)
              && r.types == FilterHeader(filtersEnabled, nonAds)
                            + Repeat(SECTION_TYPE_INSTALL_AD, CountAds(latest.value))
                            + Repeat(SECTION_TYPE_APP, if r.filter.None? then |nonAds| else Occurrences(r.filter.value, nonAds))
  {
    if latest.None? || |latest.value| == 0 then Computed([], filter)
    else
      var nonAds := NonAds(latest.value);
      var kept := if filter.Some? && filter.value !in nonAds then None else filter;
      Computed(FilterHeader(filtersEnabled, nonAds) + AdTypes(latest.value) + AppTypes(nonAds, kept), kept)
  }

  datatype SectionKind = AppSection | FiltersSection | AdSection

  /** `onCreateSection`: an unknown section type is a RuntimeException. */
  function CreateSection(sectionType: int): (r: Outcome<SectionKind>)
    ensures r.Ok? <==> sectionType in {SECTION_TYPE_APP, SECTION_TYPE_FILTERS, SECTION_TYPE_INSTALL_AD}
    ensures r.Thrown? ==> r.error == Runtime
  {
    if sectionType == SECTION_TYPE_APP then Ok(AppSection)
    else if sectionType == SECTION_TYPE_FILTERS then Ok(FiltersSection)
    else if sectionType == SECTION_TYPE_INSTALL_AD then Ok(AdSection)
    else Thrown(Runtime)
  }

  /** The kind each section type creates, the partner of CreateSection. */
  function KindType(k: SectionKind): int
  {
    match k
    case AppSection => SECTION_TYPE_APP
    case FiltersSection => SECTION_TYPE_FILTERS
    case AdSection => SECTION_TYPE_INSTALL_AD
  }

  lemma CreateSectionInvertsKindType(k: SectionKind)
    ensures CreateSection(KindType(k)) == Ok(k)
  {
  }

  function CreateSections(types: seq<int>): (r: Outcome<seq<SectionKind>>)
    ensures r.Ok? <==> forall i :: 0 <= i < |types| ==> CreateSection(types[i]).Ok?
    ensures r.Ok? ==> |r.value| == |types| && forall i :: 0 <= i < |types| ==> CreateSection(types[i]) == Ok(r.value[i])
  {
    if |types| == 0 then Ok([])
    else
      match CreateSection(types[0])
      case Thrown(e) => Thrown(e)
      case Ok(k) =>
        match CreateSections(types[1..])
        case Thrown(e) =>
          assert exists i :: 1 <= i < |types| && !CreateSection(types[i]).Ok? by {
            var i :| 0 <= i < |types[1..]| && !CreateSection(types[1..][i]).Ok?;
            assert types[1..][i] == types[i + 1];
          }
          Thrown(e)
        case Ok(ks) =>
          assert forall i :: 1 <= i < |types| ==> types[i] == types[1..][i - 1];
          Ok([k] + ks)
  }

  // ---------------------------------------------------------------- adapters consuming results

  function FirstAdIndex(items: seq<AppResult>): (r: int)
    ensures -1 <= r < |items|
    ensures r == -1 <==> CountAds(items) == 0
    ensures r >= 0 ==> IsInstallAd(items[r]) && forall i :: 0 <= i < r ==> !IsInstallAd(items[i])
  {
    if |items| == 0 then -1
    else if IsInstallAd(items[0]) then 0
    else
      var r := FirstAdIndex(items[1..]);
      if r < 0 then -1 else r + 1
  }

  function IndexOfItem(items: seq<AppResult>, f: AppResult): (r: int)
    ensures -1 <= r < |items|
    ensures r == -1 <==> f !in items
    ensures r >= 0 ==> items[r] == f && forall i :: 0 <= i < r ==> items[i] != f
  {
    if |items| == 0 then -1
    else if items[0] == f then 0
    else
      var r := IndexOfItem(items[1..], f);
      if r < 0 then -1 else r + 1
  }

  /** AdAdapter.setItems as written: take the head, which must be an install ad. */
  function AdTakeAsWritten(items: seq<AppResult>): (r: Outcome<seq<AppResult>>)
    ensures r.Ok? <==> |items| > 0 && IsInstallAd(items[0])
    ensures r.Ok? ==> r.value == items[1..]
    ensures |items| > 0 && !IsInstallAd(items[0]) ==> r == Thrown(Runtime)
  {
    if |items| == 0 then Thrown(IndexOutOfBounds)
    else if !IsInstallAd(items[0]) then Thrown(Runtime)
    else Ok(items[1..])
  }

  /** AdAdapter.setItems corrected: take the first install ad left, wherever it is. */
  function AdTake(items: seq<AppResult>): (r: Outcome<seq<AppResult>>)
    ensures r.Ok? <==> CountAds(items) > 0
    ensures r.Ok? ==> CountAds(r.value) == CountAds(items) - 1 && NonAds(r.value) == NonAds(items)
  {
    var i := FirstAdIndex(items);
    if i < 0 then Thrown(Runtime)
    else
      RemoveOneCounts(items, i);
      Ok(Sections.Remove(items, i))
  }

  /**
   * AppAdapter.setItems: without a filter take the head; with one, take
   * the first occurrence of the filtered app, an IllegalStateException if
   * it is absent.
   */
  function AppTake(filter: Option<AppResult>, items: seq<AppResult>): (r: Outcome<seq<AppResult>>)
    ensures filter.None? ==> (r.Ok? <==> |items| > 0) && (r.Ok? ==> r.value == items[1..])
    ensures filter.Some? ==> (r.Ok? <==> filter.value in items) && (r.Thrown? ==> r.error == IllegalState)
    ensures filter.Some? && r.Ok? ==> Occurrences(filter.value, r.value) == Occurrences(filter.value, items) - 1
    ensures r.Ok? ==> CountAds(r.value) <= CountAds(items)
  {
    match filter
    case None => if |items| == 0 then Thrown(IndexOutOfBounds) else Ok(items[1..])
    case Some(f) =>
      var i := IndexOfItem(items, f);
      if i < 0 then Thrown(IllegalState)
      else
        RemoveOneCounts(items, i);
        Ok(Sections.Remove(items, i))
  }

  /** Removing the element at i removes exactly that element from every count. */
  lemma {:induction false} RemoveOneCounts(items: seq<AppResult>, i: nat)
    requires i < |items|
    ensures CountAds(Sections.Remove(items, i)) == CountAds(items) - (if IsInstallAd(items[i]) then 1 else 0)
    ensures IsInstallAd(items[i]) ==> NonAds(Sections.Remove(items, i)) == NonAds(items)
    ensures Occurrences(items[i], Sections.Remove(items, i)) == Occurrences(items[i], items) - 1
  {
    var a, b, x := items[..i], items[i + 1..], items[i];
    assert items == a + ([x] + b);
    assert Sections.Remove(items, i) == a + b;
    assert [x][1..] == [];
    AdsAppend(a, [x] + b);
    AdsAppend([x], b);
    AdsAppend(a, b);
    NonAdsAppend(a, [x] + b);
    NonAdsAppend([x], b);
    NonAdsAppend(a, b);
    OccurrencesAppend(x, a, [x] + b);
    OccurrencesAppend(x, [x], b);
    OccurrencesAppend(x, a, b);
  }

  /** What a section does with the results it receives. */
  function Step(kind: SectionKind, filter: Option<AppResult>, corrected: bool, items: seq<AppResult>): Outcome<seq<AppResult>>
  {
    match kind
    case FiltersSection => Ok(items)
    case AdSection => if corrected then AdTake(items) else AdTakeAsWritten(items)
    case AppSection => AppTake(filter, items)
  }

  /** The filter row shows a "see all" entry, then one entry per organic result; it consumes nothing. */
  function FilterEntries(items: seq<AppResult>): (r: seq<Option<AppResult>>)
    ensures |r| == |NonAds(items)| + 1 && r[0] == None
    ensures forall i :: 0 <= i < |NonAds(items)| ==> r[i + 1] == Some(NonAds(items)[i])
  {
    [None] + AppFilterEntries(items)
  }

  function AppFilterEntries(items: seq<AppResult>): (r: seq<Option<AppResult>>)
    ensures |r| == |NonAds(items)|
    ensures forall i :: 0 <= i < |r| ==> r[i] == Some(NonAds(items)[i])
  {
    if |items| == 0 then []
    else if IsInstallAd(items[0]) then AppFilterEntries(items[1..])
    else [Some(items[0])] + AppFilterEntries(items[1..])
  }

  /** `applyResults`: the results go through the sections in order. */
  function Apply(kinds: seq<SectionKind>, filter: Option<AppResult>, corrected: bool, results: seq<AppResult>): Sections.Applied<AppResult>
  {
    Sections.ApplyChain(kinds, results, (k: SectionKind, items: seq<AppResult>) => Step(k, filter, corrected, items))
  }

  function StepFn(filter: Option<AppResult>, corrected: bool): (SectionKind, seq<AppResult>) -> Outcome<seq<AppResult>>
  {
    (k: SectionKind, items: seq<AppResult>) => Step(k, filter, corrected, items)
  }

  // ---------------------------------------------------------------- the chain, section run by section run

  /** The first n results are install ads. */
  predicate LeadingAds(items: seq<AppResult>, n: nat)
  {
    n <= |items| && forall i :: 0 <= i < n ==> IsInstallAd(items[i])
  }

  lemma LeadingAdsCons(items: seq<AppResult>, n: nat)
    requires n > 0
    ensures LeadingAds(items, n) <==> |items| > 0 && IsInstallAd(items[0]) && LeadingAds(items[1..], n - 1)
  {
    if |items| > 0 && IsInstallAd(items[0]) && LeadingAds(items[1..], n - 1) {
      forall i | 0 <= i < n ensures IsInstallAd(items[i]) {
        if i > 0 {
          assert items[i] == items[1..][i - 1];
        }
      }
    }
    if LeadingAds(items, n) && |items| > 1 {
      forall i | 0 <= i < n - 1 ensures IsInstallAd(items[1..][i]) {
        assert items[1..][i] == items[i + 1];
      }
    }
  }

  lemma {:induction false} AdRunAsWritten(n: nat, items: seq<AppResult>, filter: Option<AppResult>)
    ensures var o := Sections.ApplyChain(Repeat(AdSection, n), items, StepFn(filter, false)).outcome;
            && (o.Ok? <==> LeadingAds(items, n))
            && (o.Ok? ==> o.value == items[n..])
    decreases n
  {
    var ks := Repeat(AdSection, n);
    var step := StepFn(filter, false);
    if n > 0 {
      assert ks[0] == AdSection && ks[1..] == Repeat(AdSection, n - 1);
      Sections.ChainCons(ks, items, step);
      LeadingAdsCons(items, n);
      if |items| > 0 && IsInstallAd(items[0]) {
        assert step(ks[0], items) == Ok(items[1..]);
        AdRunAsWritten(n - 1, items[1..], filter);
        if n <= |items| {
          assert items[1..][n - 1..] == items[n..];
        }
      } else {
        assert step(ks[0], items).Thrown?;
      }
    }
  }

  lemma {:induction false} AdRunCorrected(n: nat, items: seq<AppResult>, filter: Option<AppResult>)
    requires n <= CountAds(items)
    ensures var o := Sections.ApplyChain(Repeat(AdSection, n), items, StepFn(filter, true)).outcome;
            o.Ok? && CountAds(o.value) == CountAds(items) - n && NonAds(o.value) == NonAds(items)
    decreases n
  {
    var ks := Repeat(AdSection, n);
    var step := StepFn(filter, true);
    if n > 0 {
      assert ks[0] == AdSection && ks[1..] == Repeat(AdSection, n - 1);
      Sections.ChainCons(ks, items, step);
      var taken := AdTake(items);
      assert step(ks[0], items) == taken && taken.Ok?;
      AdRunCorrected(n - 1, taken.value, filter);
    }
  }

  lemma {:induction false} AppRunUnfiltered(n: nat, items: seq<AppResult>, corrected: bool)
    ensures var o := Sections.ApplyChain(Repeat(AppSection, n), items, StepFn(None, corrected)).outcome;
            (o.Ok? <==> n <= |items|) && (o.Ok? ==> o.value == items[n..] && CountAds(o.value) <= CountAds(items))
    decreases n
  {
    var ks := Repeat(AppSection, n);
    if n > 0 {
      assert ks[0] == AppSection && ks[1..] == Repeat(AppSection, n - 1);
      if |items| > 0 {
        AppRunUnfiltered(n - 1, items[1..], corrected);
        if n <= |items| {
          assert items[1..][n - 1..] == items[n..];
        }
      }
    }
  }

  lemma {:induction false} AppRunFiltered(n: nat, items: seq<AppResult>, f: AppResult, corrected: bool)
    requires n <= Occurrences(f, items)
    ensures var o := Sections.ApplyChain(Repeat(AppSection, n), items, StepFn(Some(f), corrected)).outcome;
            o.Ok? && Occurrences(f, o.value) == Occurrences(f, items) - n && CountAds(o.value) <= CountAds(items)
    decreases n
  {
    var ks := Repeat(AppSection, n);
    if n > 0 {
      assert ks[0] == AppSection && ks[1..] == Repeat(AppSection, n - 1);
      AppRunFiltered(n - 1, AppTake(Some(f), items).value, f, corrected);
    }
  }

  lemma HeaderRun(filtersEnabled: bool, nonAds: seq<AppResult>, items: seq<AppResult>, filter: Option<AppResult>, corrected: bool)
    ensures CreateSections(FilterHeader(filtersEnabled, nonAds)).Ok?
    ensures Sections.ApplyChain(CreateSections(FilterHeader(filtersEnabled, nonAds)).value, items, StepFn(filter, corrected)).outcome
            == Ok(items)
  {
    var hk := CreateSections(FilterHeader(filtersEnabled, nonAds)).value;
    if filtersEnabled && |nonAds| > 1 {
      assert hk == [FiltersSection];
      var tail := Sections.ApplyChain(hk[1..], items, StepFn(filter, corrected));
      assert tail.outcome == Ok(items);
    }
  }

  /** The kinds created for computed section types: the header, then the ad run, then the app run. */
  lemma ComputedKinds(header: seq<int>, ads: nat, apps: nat)
    requires header == [] || header == [SECTION_TYPE_FILTERS]
    ensures CreateSections(header + Repeat(SECTION_TYPE_INSTALL_AD, ads) + Repeat(SECTION_TYPE_APP, apps))
            == Ok(CreateSections(header).value + Repeat(AdSection, ads) + Repeat(AppSection, apps))
  {
    var types := header + Repeat(SECTION_TYPE_INSTALL_AD, ads) + Repeat(SECTION_TYPE_APP, apps);
    var kinds := CreateSections(header).value + Repeat(AdSection, ads) + Repeat(AppSection, apps);
    forall i | 0 <= i < |types| ensures CreateSection(types[i]) == Ok(kinds[i]) {
      if i < |header| {
        assert types[i] == header[i] && kinds[i] == CreateSections(header).value[i];
      } else if i < |header| + ads {
        assert types[i] == SECTION_TYPE_INSTALL_AD && kinds[i] == AdSection;
      } else {
        assert types[i] == SECTION_TYPE_APP && kinds[i] == AppSection;
      }
    }
    assert CreateSections(types).Ok?;
    assert CreateSections(types).value == kinds;
  }

  /**
   * As written, applying fresh results to the sections computed from them
   * succeeds exactly when no install ad follows an organic result: each ad
   * section takes the head of what is left.
   */
  lemma ApplyAsWrittenOkIffAdsFirst(results: seq<AppResult>, filter: Option<AppResult>, filtersEnabled: bool)
    ensures var c := ComputeSections(Some(results), filter, filtersEnabled);
            && CreateSections(c.types).Ok?
            && (Apply(CreateSections(c.types).value, c.filter, false, results).outcome.Ok? <==> AdsFirst(results))
  {
    var c := ComputeSections(Some(results), filter, filtersEnabled);
    if |results| > 0 {
      var nonAds := NonAds(results);
      var header := FilterHeader(filtersEnabled, nonAds);
      var k := CountAds(results);
      var m := if c.filter.None? then |nonAds| else Occurrences(c.filter.value, nonAds);
      ComputedKinds(header, k, m);
      var hk := CreateSections(header).value;
      var step := StepFn(c.filter, false);
      Sections.ChainAppend(hk + Repeat(AdSection, k), Repeat(AppSection, m), results, step);
      Sections.ChainAppend(hk, Repeat(AdSection, k), results, step);
      HeaderRun(filtersEnabled, nonAds, results, c.filter, false);
      AdRunAsWritten(k, results, c.filter);
      AdsFirstIffLeadingAds(results);
      assert AdsFirst(results) <==> LeadingAds(results, k);
      if AdsFirst(results) {
        var rest := results[k..];
        assert rest == nonAds;
        if c.filter.None? {
          AppRunUnfiltered(m, rest, false);
        } else {
          AppRunFiltered(m, rest, c.filter.value, false);
        }
      }
    }
  }

  /** For any organic result followed by an install ad, the as-written chain throws. */
  lemma AdAfterOrganicThrows(app: AppResult, ad: AppResult, filter: Option<AppResult>, filtersEnabled: bool)
    requires !IsInstallAd(app) && IsInstallAd(ad)
    ensures var c := ComputeSections(Some([app, ad]), filter, filtersEnabled);
            Apply(CreateSections(c.types).value, c.filter, false, [app, ad]).outcome == Thrown(Runtime)
  {
    var results := [app, ad];
    var c := ComputeSections(Some(results), filter, filtersEnabled);
    assert results[1..] == [ad];
    assert CountAds(results) == 1 && NonAds(results) == [app];
    var header := FilterHeader(filtersEnabled, [app]);
    assert header == [];
    var m := if c.filter.None? then 1 else Occurrences(c.filter.value, [app]);
    ComputedKinds(header, 1, m);
    var step := StepFn(c.filter, false);
    Sections.ChainAppend(Repeat(AdSection, 1), Repeat(AppSection, m), results, step);
    assert Repeat(AdSection, 1) == [AdSection];
    assert Sections.ApplyChain([AdSection], results, step).outcome == Thrown(Runtime);
  }

  /** "featured" in any case marks an install ad, so such inputs exist. */
  lemma FeaturedIsInstallAd(hint: String)
    requires hint == "Featured"
    ensures IsInstallAd(AppResult("", hint, []))
  {
    assert CharEqualsIgnoreCase(RANKING_HINT[0], hint[0]);
  }

  /**
   * With ad sections taking the first ad left, applying fresh results to
   * the sections computed from them always succeeds, every ad is consumed,
   * and without a filter every result is.
   */
  lemma ApplyCorrectedAlwaysOk(results: seq<AppResult>, filter: Option<AppResult>, filtersEnabled: bool)
    ensures var c := ComputeSections(Some(results), filter, filtersEnabled);
            && CreateSections(c.types).Ok?
            && var o := Apply(CreateSections(c.types).value, c.filter, true, results).outcome;
            && o.Ok?
            && CountAds(o.value) == 0
            && (c.filter.None? ==> o.value == [])
  {
    var c := ComputeSections(Some(results), filter, filtersEnabled);
    if |results| > 0 {
      var nonAds := NonAds(results);
      var header := FilterHeader(filtersEnabled, nonAds);
      var k := CountAds(results);
      var m := if c.filter.None? then |nonAds| else Occurrences(c.filter.value, nonAds);
      ComputedKinds(header, k, m);
      var hk := CreateSections(header).value;
      var step := StepFn(c.filter, true);
      Sections.ChainAppend(hk + Repeat(AdSection, k), Repeat(AppSection, m), results, step);
      Sections.ChainAppend(hk, Repeat(AdSection, k), results, step);
      HeaderRun(filtersEnabled, nonAds, results, c.filter, true);
      AdRunCorrected(k, results, c.filter);
      var rest := Sections.ApplyChain(Repeat(AdSection, k), results, step).outcome.value;
      NoAdsMeansAllNonAds(rest);
      assert rest == nonAds;
      if c.filter.None? {
        AppRunUnfiltered(m, rest, true);
      } else {
        AppRunFiltered(m, rest, c.filter.value, true);
      }
    }
  }
}
